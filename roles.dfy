/** The role hierarchy of yt2audiobot/models/admin.py and
    yt2audiobot/models/root.py: Admin is a one-to-one extension of an
    AuthorizedUser row, Root a one-to-one extension of an Admin row, and
    every role check is a join that applies the account matching rule. */
module Roles {
  import opened Common
  import opened Accounts

  /** An Admin row: `authorized_user` (the primary key, here the account's
      row index) and `chat_id`. */
  datatype AdminRow = AdminRow(user: nat, chatId: int)

  /** A Root row: `admin`, the primary key of an Admin row (its account's row index). */
  datatype RootRow = RootRow(admin: nat)

  /** The three tables of the users database, each in table order. */
  datatype UsersTables = UsersTables(users: seq<Account>, admins: seq<AdminRow>, roots: seq<RootRow>)

  /** The constraints the schema declares: UNIQUE telegram_id and username,
      NOT NULL account columns,
      Admin's primary key and UNIQUE chat_id, Root's primary key, and Admin
      and Root rows referring to existing accounts (no account is ever
      deleted). SQLite does not enforce foreign keys, so a Root row may
      outlive its Admin row. */
  predicate Valid(t: UsersTables) {
    && UniqueAccounts(t.users)
    && (forall i :: 0 <= i < |t.users| ==> NotNull(t.users[i]))
    && (forall a :: 0 <= a < |t.admins| ==> t.admins[a].user < |t.users|)
    && (forall a, b :: 0 <= a < |t.admins| && 0 <= b < |t.admins| && a != b ==>
          t.admins[a].user != t.admins[b].user && t.admins[a].chatId != t.admins[b].chatId)
    && (forall r, s :: 0 <= r < |t.roots| && 0 <= s < |t.roots| && r != s ==> t.roots[r].admin != t.roots[s].admin)
    && (forall r :: 0 <= r < |t.roots| ==> t.roots[r].admin < |t.users|)
  }

  /** The constraints admit inserting the Admin row `ad`. */
  predicate CanInsertAdmin(admins: seq<AdminRow>, ad: AdminRow) {
    forall b :: 0 <= b < |admins| ==> admins[b].user != ad.user && admins[b].chatId != ad.chatId
  }

  /** The constraints admit saving `ad` over Admin row `a`. */
  predicate CanSaveAdmin(admins: seq<AdminRow>, a: nat, ad: AdminRow) {
    forall b :: 0 <= b < |admins| && b != a ==> admins[b].user != ad.user && admins[b].chatId != ad.chatId
  }

  /** The join Admin -> AuthorizedUser keeps the row and the key predicate holds of its account. */
  predicate AdminRowMatches(users: seq<Account>, ad: AdminRow, key: TelegramUser) {
    ad.user < |users| && Matches(users[ad.user], key)
  }

  /** `Admin.select().join(AuthorizedUser).where(predicate).limit(1).first()`. */
  function FirstAdmin(users: seq<Account>, admins: seq<AdminRow>, key: TelegramUser): (r: Option<nat>)
    ensures r.Some? ==> r.value < |admins| && AdminRowMatches(users, admins[r.value], key)
    ensures r.Some? ==> forall b :: 0 <= b < r.value ==> !AdminRowMatches(users, admins[b], key)
    ensures r.None? <==> forall b :: 0 <= b < |admins| ==> !AdminRowMatches(users, admins[b], key)
  {
    if |admins| == 0 then None
    else if AdminRowMatches(users, admins[0], key) then Some(0)
    else match FirstAdmin(users, admins[1..], key)
      case None => None
      case Some(k) => Some(k + 1)
  }

  /** `Admin._select_from_telegram_user`. */
  function SelectAdmin(t: UsersTables, key: TelegramUser): (r: Result<Option<nat>>)
    ensures r.Err? <==> !HasIdentity(key)
    ensures r.Err? ==> r.error == InvalidKey
    ensures r.Ok? ==> r.value == FirstAdmin(t.users, t.admins, key)
  {
    if !HasIdentity(key) then Err(InvalidKey) else Ok(FirstAdmin(t.users, t.admins, key))
  }

  /** `Admin.exists_from_telegram_user`: some Admin row's account matches the
      key, and then the key matches an account. */
  function AdminExists(t: UsersTables, key: TelegramUser): (r: Result<bool>)
    ensures r.Err? <==> !HasIdentity(key)
    ensures r.Ok? ==> (r.value <==> exists a :: 0 <= a < |t.admins| && AdminRowMatches(t.users, t.admins[a], key))
    ensures r == Ok(true) ==> FirstMatch(t.users, key).Some?
  {
    match SelectAdmin(t, key)
    case Err(e) => Err(e)
    case Ok(a) => Ok(a.Some?)
  }

  /** The join Root -> Admin -> AuthorizedUser keeps root row `rt` and the key predicate holds. */
  predicate RootRowMatches(t: UsersTables, rt: RootRow, key: TelegramUser) {
    exists a :: 0 <= a < |t.admins| && t.admins[a].user == rt.admin && AdminRowMatches(t.users, t.admins[a], key)
  }

  /** `Root.exists_from_telegram_user`; a root key is an admin key. */
  function RootExists(t: UsersTables, key: TelegramUser): (r: Result<bool>)
    ensures r.Err? <==> !HasIdentity(key)
    ensures r.Ok? ==> (r.value <==> exists k :: 0 <= k < |t.roots| && RootRowMatches(t, t.roots[k], key))
    ensures r == Ok(true) ==> AdminExists(t, key) == Ok(true)
  {
    if !HasIdentity(key) then Err(InvalidKey)
    else Ok(exists k :: 0 <= k < |t.roots| && RootRowMatches(t, t.roots[k], key))
  }

  /** root(key) implies admin(key) implies some account matches key. */
  lemma Containment(t: UsersTables, key: TelegramUser)
    ensures RootExists(t, key) == Ok(true) ==> AdminExists(t, key) == Ok(true)
    ensures AdminExists(t, key) == Ok(true) ==> SelectUser(t.users, key).Ok? && SelectUser(t.users, key).value.Some?
  {
  }

  /** The chat_id of each Admin row with primary key `pk` (at most one in a valid table). */
  function ChatIdsOf(admins: seq<AdminRow>, pk: nat): (r: seq<int>)
    ensures forall c :: c in r <==> exists a :: 0 <= a < |admins| && admins[a].user == pk && admins[a].chatId == c
  {
    if |admins| == 0 then []
    else
      var rest := ChatIdsOf(admins[1..], pk);
      assert forall a :: 1 <= a < |admins| ==> admins[a] == admins[1..][a - 1];
      (if admins[0].user == pk then [admins[0].chatId] else []) + rest
  }

  /** `Root.get_root_chat_id`: the chat_id of the Admin joined to each Root row,
      listed in Root table order (the SQL join fixes no order). */
  function RootChatIds(admins: seq<AdminRow>, roots: seq<RootRow>): (r: seq<int>)
    ensures forall c :: c in r <==>
      exists k, a :: 0 <= k < |roots| && 0 <= a < |admins| && admins[a].user == roots[k].admin && admins[a].chatId == c
  {
    if |roots| == 0 then []
    else
      var rest := RootChatIds(admins, roots[1..]);
      assert forall k :: 1 <= k < |roots| ==> roots[k] == roots[1..][k - 1];
      ChatIdsOf(admins, roots[0].admin) + rest
  }

  lemma {:induction false} ChatIdsOfUnique(admins: seq<AdminRow>, pk: nat, a: nat)
    requires a < |admins| && admins[a].user == pk
    requires forall x, y :: 0 <= x < |admins| && 0 <= y < |admins| && x != y ==> admins[x].user != admins[y].user
    ensures ChatIdsOf(admins, pk) == [admins[a].chatId]
  {
    if a == 0 {
      ChatIdsOfAbsent(admins[1..], pk);
    } else {
      ChatIdsOfUnique(admins[1..], pk, a - 1);
    }
  }

  lemma {:induction false} ChatIdsOfAbsent(admins: seq<AdminRow>, pk: nat)
    requires forall x :: 0 <= x < |admins| ==> admins[x].user != pk
    ensures ChatIdsOf(admins, pk) == []
  {
    if |admins| > 0 {
      ChatIdsOfAbsent(admins[1..], pk);
    }
  }

  /** In a valid store whose Root rows all refer to existing Admin rows,
      `get_root_chat_id` has one element per Root row. */
  lemma {:induction false} RootChatIdsOnePerRoot(admins: seq<AdminRow>, roots: seq<RootRow>)
    requires forall x, y :: 0 <= x < |admins| && 0 <= y < |admins| && x != y ==> admins[x].user != admins[y].user
    requires forall k :: 0 <= k < |roots| ==> exists a :: 0 <= a < |admins| && admins[a].user == roots[k].admin
    ensures |RootChatIds(admins, roots)| == |roots|
  {
    if |roots| > 0 {
      var a :| 0 <= a < |admins| && admins[a].user == roots[0].admin;
      ChatIdsOfUnique(admins, roots[0].admin, a);
      assert forall k :: 0 <= k < |roots| - 1 ==> roots[1..][k] == roots[k + 1];
      RootChatIdsOnePerRoot(admins, roots[1..]);
    }
  }

  /** `Admin.from_telegram_user`: the Admin row found for the key, with its
      account merged (Telegram id pin, non-None names) and its chat_id set
      only when one is given. The Admin row is saved before the account, so
      a UNIQUE violation on the account leaves the Admin row saved. */
  function AdminFromTelegramUser(t: UsersTables, key: TelegramUser, chatId: Option<int>, updateDb: bool, dontRaise: bool)
    : (res: (Result<Option<nat>>, UsersTables))
    requires Valid(t)
    ensures res.0 == Err(InvalidKey) <==> !HasIdentity(key)
    ensures res.1.roots == t.roots && |res.1.users| == |t.users| && |res.1.admins| == |t.admins|
    // no Admin row for the key: nothing changes
    ensures HasIdentity(key) && FirstAdmin(t.users, t.admins, key).None? ==>
              res == (if dontRaise then Ok(None) else Err(DoesNotExist), t)
    // an Admin row for the key: it is the first one, and only it and its account may change
    ensures HasIdentity(key) && FirstAdmin(t.users, t.admins, key).Some? ==>
              var a := FirstAdmin(t.users, t.admins, key).value;
              var ui := t.admins[a].user;
              && (res.0.Ok? ==> res.0 == Ok(Some(a)))
              && (forall b :: 0 <= b < |t.admins| && b != a ==> res.1.admins[b] == t.admins[b])
              && (forall j :: 0 <= j < |t.users| && j != ui ==> res.1.users[j] == t.users[j])
              && res.1.admins[a].user == ui
              && (res.1.admins[a] == t.admins[a] || res.1.admins[a].chatId == Override(chatId, t.admins[a].chatId))
              && (res.1.users[ui] == t.users[ui] || res.1.users[ui] == Merge(t.users[ui], key, None, None))
    // with update_db and no constraint violated, both rows hold their new values
    ensures updateDb && res.0.Ok? && res.0.value.Some? ==>
              var a := res.0.value.value;
              var ui := t.admins[a].user;
              && res.1.admins[a].chatId == Override(chatId, t.admins[a].chatId)
              && res.1.users[ui] == Merge(t.users[ui], key, None, None)
    ensures !updateDb ==> res.1 == t
  {
    match SelectAdmin(t, key)
    case Err(e) => (Err(e), t)
    case Ok(None) => (if dontRaise then Ok(None) else Err(DoesNotExist), t)
    case Ok(Some(a)) =>
      var ui := t.admins[a].user;
      var m := Merge(t.users[ui], key, None, None);
      var ad := t.admins[a].(chatId := Override(chatId, t.admins[a].chatId));
      if !updateDb then (Ok(Some(a)), t)
      else if !CanSaveAdmin(t.admins, a, ad) then (Err(IntegrityError), t)
      else if !CanSave(t.users, ui, m) then (Err(IntegrityError), t.(admins := t.admins[a := ad]))
      else (Ok(Some(a)), UsersTables(t.users[ui := m], t.admins[a := ad], t.roots))
  }

  /** `Admin.from_telegram_user` keeps every schema constraint. */
  lemma AdminFromTelegramUserKeepsValid(t: UsersTables, key: TelegramUser, chatId: Option<int>, updateDb: bool, dontRaise: bool)
    requires Valid(t)
    ensures Valid(AdminFromTelegramUser(t, key, chatId, updateDb, dontRaise).1)
  {
  }

  /** A key that finds an Admin row still does after `from_telegram_user` saved it. */
  lemma AdminFromTelegramUserKeepsAdmin(t: UsersTables, key: TelegramUser, chatId: Option<int>, updateDb: bool, dontRaise: bool)
    requires Valid(t)
    requires AdminFromTelegramUser(t, key, chatId, updateDb, dontRaise).0.Ok?
    ensures AdminExists(t, key).Ok? &&
            AdminExists(AdminFromTelegramUser(t, key, chatId, updateDb, dontRaise).1, key) == AdminExists(t, key)
  {
    var res := AdminFromTelegramUser(t, key, chatId, updateDb, dontRaise);
    if FirstAdmin(t.users, t.admins, key).Some? {
      var a := FirstAdmin(t.users, t.admins, key).value;
      var ui := t.admins[a].user;
      assert AdminRowMatches(t.users, t.admins[a], key);
      assert AdminRowMatches(res.1.users, res.1.admins[a], key);
    }
  }

  /** `Admin.create_from_telegram_user`: refused for an existing admin; else
      the key's account is fetched with blocked=False and
      access_requested_count=0 saved, and one Admin row is inserted for it.
      The fetch raises DoesNotExist for a key with no account, so the
      create-the-account fallback after it never runs. */
  function AdminCreate(t: UsersTables, key: TelegramUser, chatId: Option<int>): (res: (Result<nat>, UsersTables))
    requires Valid(t)
    ensures res.0 == Err(InvalidKey) <==> !HasIdentity(key)
    ensures res.0 == Err(UserAlready) <==> AdminExists(t, key) == Ok(true)
    ensures res.0 == Err(UserAlready) ==> res.1 == t
    // a key with no account: DoesNotExist, and nothing is inserted
    ensures HasIdentity(key) && FirstMatch(t.users, key).None? ==> res == (Err(DoesNotExist), t)
    // a failed create inserts no Admin row; only the saved account may have changed
    ensures res.0.Err? ==> res.1.admins == t.admins && res.1.roots == t.roots && |res.1.users| == |t.users|
  {
    match SelectAdmin(t, key)
    case Err(e) => (Err(e), t)
    case Ok(Some(_)) => (Err(UserAlready), t)
    case Ok(None) =>
      var fetched := UserFromTelegramUser(t.users, key, Some(false), Some(0), true, false);
      if fetched.0.Err? then (Err(fetched.0.error), t.(users := fetched.1))
      else
        var ad := AdminRow(fetched.0.value.value.row, Override(chatId, DefaultTelegramId));
        if CanInsertAdmin(t.admins, ad) then (Ok(|t.admins|), UsersTables(fetched.1, t.admins + [ad], t.roots))
        else (Err(IntegrityError), t.(users := fetched.1))
  }

  /** A successful create resets the first matching account and makes it an
      admin, with chat_id given or 0, and the key is an admin afterwards. */
  lemma AdminCreateSuccess(t: UsersTables, key: TelegramUser, chatId: Option<int>)
    requires Valid(t)
    requires AdminCreate(t, key, chatId).0.Ok?
    ensures FirstMatch(t.users, key).Some?
    ensures var res := AdminCreate(t, key, chatId);
            var i := FirstMatch(t.users, key).value;
            && res.0.value == |t.admins|
            && res.1.admins == t.admins + [AdminRow(i, Override(chatId, DefaultTelegramId))]
            && res.1.users == t.users[i := Merge(t.users[i], key, Some(false), Some(0))]
            && !res.1.users[i].blocked && res.1.users[i].accessRequestedCount == 0
            && res.1.roots == t.roots
            && AdminExists(res.1, key) == Ok(true)
  {
    var res := AdminCreate(t, key, chatId);
    var i := FirstMatch(t.users, key).value;
    assert AdminRowMatches(res.1.users, res.1.admins[|t.admins|], key);
  }

  /** A create never adds or removes an account. */
  lemma AdminCreateKeepsAccounts(t: UsersTables, key: TelegramUser, chatId: Option<int>)
    requires Valid(t)
    ensures |AdminCreate(t, key, chatId).1.users| == |t.users|
  {
    if AdminCreate(t, key, chatId).0.Ok? {
      AdminCreateSuccess(t, key, chatId);
    }
  }

  /** `Admin.create_from_telegram_user` keeps every schema constraint. */
  lemma AdminCreateKeepsValid(t: UsersTables, key: TelegramUser, chatId: Option<int>)
    requires Valid(t)
    ensures Valid(AdminCreate(t, key, chatId).1)
  {
    if SelectAdmin(t, key).Ok? && SelectAdmin(t, key).value.None? {
      var fetched := UserFromTelegramUser(t.users, key, Some(false), Some(0), true, false);
      UserFetchKeepsValid(t, key, Some(false), Some(0), true, false);
      if fetched.0.Ok? {
        var ad := AdminRow(fetched.0.value.value.row, Override(chatId, DefaultTelegramId));
        assert ad.user == FirstMatch(t.users, key).value;
        if CanInsertAdmin(t.admins, ad) {
          AppendAdminKeepsValid(t.(users := fetched.1), ad);
        }
      }
    }
  }

  /** Saving an account fetched by `from_telegram_user` keeps every schema constraint. */
  lemma UserFetchKeepsValid(t: UsersTables, key: TelegramUser, blocked: Option<bool>, count: Option<int>,
                            updateDb: bool, dontRaise: bool)
    requires Valid(t)
    ensures Valid(t.(users := UserFromTelegramUser(t.users, key, blocked, count, updateDb, dontRaise).1))
  {
    var fetched := UserFromTelegramUser(t.users, key, blocked, count, updateDb, dontRaise);
    if HasIdentity(key) && FirstMatch(t.users, key).Some? && updateDb {
      var i := FirstMatch(t.users, key).value;
      var m := Merge(t.users[i], key, blocked, count);
      if CanSave(t.users, i, m) {
        assert fetched.1 == t.users[i := m];
        assert forall j :: 0 <= j < |fetched.1| ==> NotNull(fetched.1[j]);
      } else {
        assert fetched.1 == t.users;
      }
    } else {
      assert fetched.1 == t.users;
    }
  }

  /** Inserting an Admin row the constraints admit keeps every schema constraint. */
  lemma AppendAdminKeepsValid(t: UsersTables, ad: AdminRow)
    requires Valid(t) && ad.user < |t.users| && CanInsertAdmin(t.admins, ad)
    ensures Valid(t.(admins := t.admins + [ad]))
  {
    var admins := t.admins + [ad];
    forall a, b | 0 <= a < |admins| && 0 <= b < |admins| && a != b
      ensures admins[a].user != admins[b].user && admins[a].chatId != admins[b].chatId
    {
      if a == |t.admins| {
        assert admins[b] == t.admins[b];
      } else if b == |t.admins| {
        assert admins[a] == t.admins[a];
      } else {
        assert admins[a] == t.admins[a] && admins[b] == t.admins[b];
      }
    }
  }

  /** Creating an admin twice: the second create is refused and changes nothing. */
  lemma AdminCreateTwice(t: UsersTables, key: TelegramUser, chatId: Option<int>, chatId2: Option<int>)
    requires Valid(t)
    requires AdminCreate(t, key, chatId).0.Ok?
    ensures var t1 := AdminCreate(t, key, chatId).1;
            AdminCreate(t1, key, chatId2) == (Err(UserAlready), t1)
  {
    AdminCreateSuccess(t, key, chatId);
    AdminCreateKeepsValid(t, key, chatId);
  }
}
