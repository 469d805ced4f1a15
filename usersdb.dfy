/** The users database as the bot holds it: the AuthorizedUser, Admin and
    Root tables, updated in place by the record-level operations of
    yt2audiobot/models/authorizeduser.py and yt2audiobot/models/admin.py.
    Each operation is tied to the value-level definition in Accounts or
    Roles whose properties are proved there. */
module UsersStore {
  import opened Common
  import opened Accounts
  import opened Roles

  class UsersDb {
    var users: seq<Account>
    var admins: seq<AdminRow>
    var roots: seq<RootRow>

    /** The three tables as one value. */
    function Tables(): UsersTables
      reads this
    {
      UsersTables(users, admins, roots)
    }

    /** The schema constraints hold. */
    predicate Valid()
      reads this
    {
      Roles.Valid(Tables())
    }

    /** A freshly created, empty database. */
    constructor ()
      ensures users == [] && admins == [] && roots == []
      ensures Valid()
    {
      users := [];
      admins := [];
      roots := [];
    }

    /** `drop_tables` followed by `create_tables`. */
    method Clear()
      modifies this
      ensures users == [] && admins == [] && roots == []
      ensures Valid()
    {
      users := [];
      admins := [];
      roots := [];
    }

    /** `user.save()` on an existing row: refused by a NOT NULL or UNIQUE constraint, else stored. */
    method SaveUser(i: nat, a: Account) returns (o: Outcome)
      requires Valid()
      requires i < |users|
      modifies this
      ensures o == (if CanSave(old(users), i, a) then Pass else Fail(IntegrityError))
      ensures users == (if o.Pass? then old(users)[i := a] else old(users))
      ensures admins == old(admins) && roots == old(roots)
      ensures Valid()
    {
      if !CanSave(users, i, a) {
        return Fail(IntegrityError);
      }
      users := users[i := a];
      o := Pass;
    }

    /** `AuthorizedUser.create(...)`: refused by a NOT NULL or UNIQUE constraint, else appended. */
    method InsertUser(a: Account) returns (r: Result<nat>)
      requires Valid()
      modifies this
      ensures r == (if CanInsert(old(users), a) then Ok(|old(users)|) else Err(IntegrityError))
      ensures users == (if r.Ok? then old(users) + [a] else old(users))
      ensures admins == old(admins) && roots == old(roots)
      ensures Valid()
    {
      if !CanInsert(users, a) {
        return Err(IntegrityError);
      }
      r := Ok(|users|);
      users := users + [a];
    }

    /** `admin.save()` on an existing Admin row. */
    method SaveAdmin(k: nat, ad: AdminRow) returns (o: Outcome)
      requires Valid()
      requires k < |admins| && ad.user < |users|
      modifies this
      ensures o == (if CanSaveAdmin(old(admins), k, ad) then Pass else Fail(IntegrityError))
      ensures admins == (if o.Pass? then old(admins)[k := ad] else old(admins))
      ensures users == old(users) && roots == old(roots)
      ensures Valid()
    {
      if !CanSaveAdmin(admins, k, ad) {
        return Fail(IntegrityError);
      }
      admins := admins[k := ad];
      o := Pass;
    }

    /** `Admin.create(...)` for an existing account. */
    method InsertAdmin(ad: AdminRow) returns (r: Result<nat>)
      requires Valid()
      requires ad.user < |users|
      modifies this
      ensures r == (if CanInsertAdmin(old(admins), ad) then Ok(|old(admins)|) else Err(IntegrityError))
      ensures admins == (if r.Ok? then old(admins) + [ad] else old(admins))
      ensures users == old(users) && roots == old(roots)
      ensures Valid()
    {
      if !CanInsertAdmin(admins, ad) {
        return Err(IntegrityError);
      }
      r := Ok(|admins|);
      admins := admins + [ad];
    }

    /** `admin.delete_instance()`: the Admin row goes, its account and any Root row stay. */
    method DeleteAdmin(k: nat)
      requires Valid()
      requires k < |admins|
      modifies this
      ensures admins == old(admins[..k] + admins[k + 1..])
      ensures users == old(users) && roots == old(roots)
      ensures Valid()
    {
      admins := admins[..k] + admins[k + 1..];
      assert forall b :: 0 <= b < |admins| ==> admins[b] == old(admins)[if b < k then b else b + 1];
    }

    /** `Root.create(admin=...)`: refused when the Admin already has a Root row. */
    method InsertRoot(rt: RootRow) returns (r: Result<nat>)
      requires Valid()
      requires rt.admin < |users|
      modifies this
      ensures r == (if forall s :: 0 <= s < |old(roots)| ==> old(roots)[s].admin != rt.admin
                    then Ok(|old(roots)|) else Err(IntegrityError))
      ensures roots == (if r.Ok? then old(roots) + [rt] else old(roots))
      ensures users == old(users) && admins == old(admins)
      ensures Valid()
    {
      if exists s :: 0 <= s < |roots| && roots[s].admin == rt.admin {
        return Err(IntegrityError);
      }
      r := Ok(|roots|);
      roots := roots + [rt];
    }

    /** `AuthorizedUser.from_telegram_user`: fetch the first matching row,
        update the fetched record field by field, and save it when asked. */
    method FromTelegramUser(key: TelegramUser, blocked: Option<bool>, count: Option<int>, updateDb: bool, dontRaise: bool)
      returns (r: Result<Option<Fetched>>)
      requires Valid()
      modifies this
      ensures (r, users) == UserFromTelegramUser(old(users), key, blocked, count, updateDb, dontRaise)
      ensures admins == old(admins) && roots == old(roots)
      ensures Valid()
    {
      var sel := SelectUser(users, key);
      if sel.Err? {
        return Err(sel.error);
      }
      if sel.value.None? {
        if dontRaise {
          return Ok(None);
        }
        return Err(DoesNotExist);
      }
      var i := sel.value.value;
      var u := users[i];
      if (u.telegramId.None? || u.telegramId == Some(DefaultTelegramId)) && key.id.Some? {
        u := u.(telegramId := key.id);
      }
      if key.firstName.Some? {
        u := u.(firstName := key.firstName);
      }
      if key.lastName.Some? {
        u := u.(lastName := key.lastName);
      }
      if key.username.Some? {
        u := u.(username := key.username);
      }
      if blocked.Some? {
        u := u.(blocked := blocked.value);
      }
      if count.Some? {
        u := u.(accessRequestedCount := count.value);
      }
      assert u == Merge(old(users)[i], key, blocked, count);
      if updateDb {
        var o := SaveUser(i, u);
        if o.Fail? {
          return Err(o.error);
        }
      }
      r := Ok(Some(Fetched(i, u)));
    }

    /** `AuthorizedUser.create_from_telegram_user`. */
    method CreateFromTelegramUser(key: TelegramUser, blocked: Option<bool>, count: Option<int>) returns (r: Result<nat>)
      requires Valid()
      modifies this
      ensures (r, users) == CreateUser(old(users), key, NewAccount(key, blocked, count))
      ensures admins == old(admins) && roots == old(roots)
      ensures Valid()
    {
      var sel := SelectUser(users, key);
      if sel.Err? {
        return Err(sel.error);
      }
      if sel.value.Some? {
        return Err(UserAlready);
      }
      var a := Account(key.id, key.firstName, Some(""), Some(""), false, 0);
      if key.lastName.Some? {
        a := a.(lastName := key.lastName);
      }
      if key.username.Some? {
        a := a.(username := key.username);
      }
      if blocked.Some? {
        a := a.(blocked := blocked.value);
      }
      if count.Some? {
        a := a.(accessRequestedCount := count.value);
      }
      r := InsertUser(a);
    }

    /** `create_from_telegram_user` of yt2audiobot/usersdbmanager.py, which
        passes last name and username through even when they are None. */
    method CreateFromTelegramUserVerbatim(key: TelegramUser, blocked: Option<bool>, count: Option<int>) returns (r: Result<nat>)
      requires Valid()
      modifies this
      ensures (r, users) == CreateUser(old(users), key, NewAccountVerbatim(key, blocked, count))
      ensures admins == old(admins) && roots == old(roots)
      ensures Valid()
    {
      var sel := SelectUser(users, key);
      if sel.Err? {
        return Err(sel.error);
      }
      if sel.value.Some? {
        return Err(UserAlready);
      }
      var a := Account(key.id, key.firstName, key.lastName, key.username, false, 0);
      if blocked.Some? {
        a := a.(blocked := blocked.value);
      }
      if count.Some? {
        a := a.(accessRequestedCount := count.value);
      }
      r := InsertUser(a);
    }

    /** `Admin.from_telegram_user`: update the Admin row and its account,
        then save the Admin row and the account, in that order. */
    method AdminFromTelegramUser(key: TelegramUser, chatId: Option<int>, updateDb: bool, dontRaise: bool)
      returns (r: Result<Option<nat>>)
      requires Valid()
      modifies this
      ensures (r, Tables()) == Roles.AdminFromTelegramUser(old(Tables()), key, chatId, updateDb, dontRaise)
      ensures Valid()
    {
      AdminFromTelegramUserKeepsValid(Tables(), key, chatId, updateDb, dontRaise);
      var sel := SelectAdmin(Tables(), key);
      if sel.Err? {
        return Err(sel.error);
      }
      if sel.value.None? {
        if dontRaise {
          return Ok(None);
        }
        return Err(DoesNotExist);
      }
      var k := sel.value.value;
      var ad := admins[k];
      var ui := ad.user;
      var u := users[ui];
      if (u.telegramId.None? || u.telegramId == Some(DefaultTelegramId)) && key.id.Some? {
        u := u.(telegramId := key.id);
      }
      if key.firstName.Some? {
        u := u.(firstName := key.firstName);
      }
      if key.lastName.Some? {
        u := u.(lastName := key.lastName);
      }
      if key.username.Some? {
        u := u.(username := key.username);
      }
      if chatId.Some? {
        ad := ad.(chatId := chatId.value);
      }
      assert u == Merge(old(users)[ui], key, None, None);
      if updateDb {
        var o := SaveAdmin(k, ad);
        if o.Fail? {
          return Err(o.error);
        }
        o := SaveUser(ui, u);
        if o.Fail? {
          return Err(o.error);
        }
      }
      r := Ok(Some(k));
    }

    /** `Admin.create_from_telegram_user`. */
    method AdminCreateFromTelegramUser(key: TelegramUser, chatId: Option<int>) returns (r: Result<nat>)
      requires Valid()
      modifies this
      ensures (r, Tables()) == AdminCreate(old(Tables()), key, chatId)
      ensures Valid()
    {
      var sel := SelectAdmin(Tables(), key);
      if sel.Err? {
        return Err(sel.error);
      }
      if sel.value.Some? {
        return Err(UserAlready);
      }
      var fetched := FromTelegramUser(key, Some(false), Some(0), true, false);
      if fetched.Err? {
        return Err(fetched.error);
      }
      if fetched.value.None? {
        // the account-creating fallback: from_telegram_user raised DoesNotExist instead
        assert false;
      }
      r := InsertAdmin(AdminRow(fetched.value.value.row, Override(chatId, DefaultTelegramId)));
    }
  }
}
