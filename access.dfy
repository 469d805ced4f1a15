/** The access-request state machine of yt2audiobot.py: what the "Ask for
    access" button (`btn_req_access`) and the four decision buttons of a
    root (`btn_give_access`) do to the users database, and the /addUser
    and /addAdmin commands (`add_user_from_type`). Messages, markups and edits sent to
    Telegram are not modelled; only the database changes are. */
module Access {
  import opened Common
  import opened Accounts
  import opened Roles
  import opened Commands
  import opened UsersStore
  import Bootstrap
  import Decimal

  /** `auth_user.save()` of the record `a` over row `i`. */
  function SaveAccount(users: seq<Account>, i: nat, a: Account): (res: (Outcome, seq<Account>))
    requires i < |users|
    // only row `i` can change, and it becomes `a` exactly when NOT NULL and UNIQUE admit it
    ensures |res.1| == |users| && res.1 == users[i := res.1[i]]
    ensures res.0.Pass? <==> CanSave(users, i, a)
    ensures res.0.Pass? ==> res.1[i] == a
    ensures res.0.Fail? ==> res.0.error == IntegrityError && res.1 == users
  {
    if CanSave(users, i, a) then (Pass, users[i := a]) else (Fail(IntegrityError), users)
  }

  /** A save keeps both constraints on the accounts table. */
  lemma SaveAccountKeepsConstraints(users: seq<Account>, i: nat, a: Account)
    requires i < |users|
    ensures UniqueAccounts(users) ==> UniqueAccounts(SaveAccount(users, i, a).1)
    ensures (forall k :: 0 <= k < |users| ==> NotNull(users[k])) ==>
              forall k :: 0 <= k < |users| ==> NotNull(SaveAccount(users, i, a).1[k])
  {
  }

  /** The bookkeeping of `btn_req_access` for the user pressing the button:
      the ban check, then a fetch that refreshes the names, then either a
      new blocked account with one request or, for a blocked account, one
      more request. A banned user goes through it too. */
  function RequestAccess(users: seq<Account>, from: TelegramUser): (res: (Outcome, seq<Account>))
    ensures |users| <= |res.1| <= |users| + 1
  {
    match IsBannedFromTelegramUser(users, from)
    case Err(e) => (Fail(e), users)
    case Ok(_) =>
      var fetched := UserFromTelegramUser(users, from, None, None, true, false);
      match fetched.0
      case Err(DoesNotExist) =>
        var created := CreateUser(users, from, NewAccount(from, Some(true), Some(1)));
        (if created.0.Ok? then Pass else Fail(created.0.error), created.1)
      case Err(e) => (Fail(e), fetched.1)
      // not reached: without dont_raise the fetch raises instead of returning None
      case Ok(None) => (Pass, fetched.1)
      case Ok(Some(auth)) =>
        if auth.account.blocked then
          SaveAccount(fetched.1, auth.row, auth.account.(accessRequestedCount := auth.account.accessRequestedCount + 1))
        else (Pass, fetched.1)
  }

  /** The three outcomes of an access request: an unknown user gets a
      blocked account with one request; a known one has its names
      refreshed, and one more request counted exactly when it is blocked;
      only a UNIQUE or NOT NULL constraint can refuse the write. */
  lemma RequestAccessOutcome(users: seq<Account>, from: TelegramUser)
    requires HasIdentity(from)
    ensures var res := RequestAccess(users, from);
            var a := NewAccount(from, Some(true), Some(1));
            FirstMatch(users, from).None? ==>
              res == if CanInsert(users, a) then (Pass, users + [a]) else (Fail(IntegrityError), users)
    ensures var res := RequestAccess(users, from);
            FirstMatch(users, from).Some? ==>
              var i := FirstMatch(users, from).value;
              var u := users[i];
              && |res.1| == |users|
              && (forall j :: 0 <= j < |users| && j != i ==> res.1[j] == users[j])
              && (res.0.Fail? ==> res.0.error == IntegrityError)
              && (res.0.Pass? ==>
                    res.1[i] == Merge(u, from, None, Some(u.accessRequestedCount + if u.blocked then 1 else 0)))
  {
  }

  /** A user who presses the button `n` times. */
  function Requests(users: seq<Account>, from: TelegramUser, n: nat): (r: seq<Account>)
    ensures |users| <= |r| <= |users| + n
  {
    if n == 0 then users else RequestAccess(Requests(users, from, n - 1), from).1
  }

  /** A newcomer's record and its names do not change when it is fetched again with its own key. */
  lemma MergeNewAccount(from: TelegramUser, count: int)
    ensures Merge(NewAccount(from, Some(true), Some(count)), from, None, None) == NewAccount(from, Some(true), Some(count))
  {
  }

  /** A newcomer's first request. */
  lemma FirstRequest(users: seq<Account>, from: TelegramUser)
    requires HasIdentity(from) && FirstMatch(users, from).None?
    requires CanInsert(users, NewAccount(from, Some(true), Some(1)))
    ensures RequestAccess(users, from) == (Pass, users + [NewAccount(from, Some(true), Some(1))])
  {
  }

  /** A further request of the user holding the newest account. */
  lemma RequestAgain(users: seq<Account>, from: TelegramUser, k: int)
    requires HasIdentity(from) && FirstMatch(users, from).None?
    requires CanInsert(users, NewAccount(from, Some(true), Some(1)))
    ensures RequestAccess(users + [NewAccount(from, Some(true), Some(k))], from)
         == (Pass, users + [NewAccount(from, Some(true), Some(k + 1))])
  {
    var prev := NewAccount(from, Some(true), Some(k));
    var next := NewAccount(from, Some(true), Some(k + 1));
    var before := users + [prev];
    FirstMatchAppend(users, prev, from);
    MergeNewAccount(from, k);
    assert before[|users| := prev] == before;
    assert CanSave(before, |users|, prev);
    assert CanSave(before, |users|, next);
    assert before[|users| := next] == users + [next];
  }

  /** `n` requests by a newcomer leave one blocked account with `n`
      requests, and the user is banned exactly from the sixth on. */
  lemma RepeatedRequests(users: seq<Account>, from: TelegramUser, n: nat)
    requires HasIdentity(from) && FirstMatch(users, from).None?
    requires CanInsert(users, NewAccount(from, Some(true), Some(1)))
    requires n >= 1
    ensures Requests(users, from, n) == users + [NewAccount(from, Some(true), Some(n))]
    ensures IsBannedFromTelegramUser(Requests(users, from, n), from) == Ok(n > RequestedAccessForBan)
  {
    RequestsState(users, from, n);
    NewcomerBanned(users, from, n);
  }

  /** A user with an identity, no account yet, and a first request row the constraints admit. */
  predicate Newcomer(users: seq<Account>, from: TelegramUser) {
    HasIdentity(from) && FirstMatch(users, from).None? && CanInsert(users, NewAccount(from, Some(true), Some(1)))
  }

  lemma {:induction false} RequestsState(users: seq<Account>, from: TelegramUser, n: nat)
    requires Newcomer(users, from) && n >= 1
    ensures Requests(users, from, n) == users + [NewAccount(from, Some(true), Some(n))]
  {
    if n > 1 {
      RequestsState(users, from, n - 1);
    }
    RequestsOnce(users, from);
    RequestsStep(users, from, n);
  }

  /** The first request of a newcomer creates its row. */
  lemma RequestsOnce(users: seq<Account>, from: TelegramUser)
    ensures Newcomer(users, from) ==> Requests(users, from, 1) == users + [NewAccount(from, Some(true), Some(1))]
  {
    if Newcomer(users, from) {
      assert Requests(users, from, 0) == users;
      FirstRequest(users, from);
    }
  }

  /** Each later request of a newcomer counts one more. */
  lemma RequestsStep(users: seq<Account>, from: TelegramUser, n: nat)
    ensures Newcomer(users, from) && n >= 2 && Requests(users, from, n - 1) == users + [NewAccount(from, Some(true), Some(n - 1))]
            ==> Requests(users, from, n) == users + [NewAccount(from, Some(true), Some(n))]
  {
    if Newcomer(users, from) && n >= 2 && Requests(users, from, n - 1) == users + [NewAccount(from, Some(true), Some(n - 1))] {
      RequestAgain(users, from, n - 1);
    }
  }

  lemma NewcomerBanned(users: seq<Account>, from: TelegramUser, n: int)
    requires HasIdentity(from) && FirstMatch(users, from).None?
    ensures IsBannedFromTelegramUser(users + [NewAccount(from, Some(true), Some(n))], from) == Ok(n > RequestedAccessForBan)
  {
    FirstMatchAppend(users, NewAccount(from, Some(true), Some(n)), from);
  }

  /** `remove_admin`: `delete_instance()` of the Admin row found for the target. */
  function Demote(t: UsersTables, admin: Option<nat>): (r: UsersTables)
    requires admin.Some? ==> admin.value < |t.admins|
    ensures r.users == t.users && r.roots == t.roots
    ensures admin.None? ==> r == t
    // the row found is deleted
    ensures admin.Some? ==> |r.admins| == |t.admins| - 1
    // under UNIQUE authorized_user the demoted account has no Admin row left, and the constraints hold
    ensures Valid(t) && admin.Some? ==> forall b :: 0 <= b < |r.admins| ==> r.admins[b].user != t.admins[admin.value].user
    ensures Valid(t) ==> Valid(r)
  {
    if admin.Some? then
      DeleteAdminKeepsValid(t, admin.value);
      t.(admins := Without(t.admins, admin.value))
    else t
  }

  /** Deleting Admin row `k` keeps the constraints and, under them,
      leaves its account without an Admin row. */
  lemma DeleteAdminKeepsValid(t: UsersTables, k: nat)
    requires k < |t.admins|
    ensures Valid(t) ==> Valid(t.(admins := Without(t.admins, k)))
    ensures Valid(t) ==> forall b :: 0 <= b < |Without(t.admins, k)| ==> Without(t.admins, k)[b].user != t.admins[k].user
  {
    if Valid(t) {
      var admins := Without(t.admins, k);
      forall b | 0 <= b < |admins|
        ensures admins[b] == t.admins[if b < k then b else b + 1]
      {
      }
      DeleteOnlyRow(t.admins, k, t.admins[k].user);
    }
  }

  /** A table without its row `k`. */
  function Without<T>(rows: seq<T>, k: nat): (r: seq<T>)
    requires k < |rows|
    ensures |r| == |rows| - 1
    ensures forall b :: 0 <= b < |r| ==> r[b] == rows[if b < k then b else b + 1]
  {
    rows[..k] + rows[k + 1..]
  }

  /** `auth_user.save()` in the users tables. */
  function SaveIn(t: UsersTables, i: nat, a: Account): (res: (Outcome, UsersTables))
    requires i < |t.users|
    ensures res.1.admins == t.admins && res.1.roots == t.roots && |res.1.users| == |t.users|
    ensures Valid(t) ==> Valid(res.1)
  {
    if CanSave(t.users, i, a) then (Pass, t.(users := t.users[i := a])) else (Fail(IntegrityError), t)
  }

  /** The record a decision saves over the target's stale fetched record. */
  function Decided(u: Account, d: Decision): (r: Account)
    ensures r.telegramId == u.telegramId && r.firstName == u.firstName
    ensures r.lastName == u.lastName && r.username == u.username
    ensures r.blocked <==> d.Deny? || d.Ban?
    ensures r.accessRequestedCount ==
              match d
              case AgreeAsUser => 0
              case AgreeAsAdmin => 0
              case Deny => u.accessRequestedCount
              case Ban => RequestedAccessForBan + 1
  {
    match d
    case AgreeAsUser => u.(blocked := false, accessRequestedCount := 0)
    case AgreeAsAdmin => u.(blocked := false, accessRequestedCount := 0)
    case Deny => u.(blocked := true)
    case Ban => u.(blocked := true, accessRequestedCount := RequestedAccessForBan + 1)
  }

  /** The body of `btn_give_access` once the actor is known to be root and
      the target, the private chat `cid`, not: fetch the target (an unknown
      one is reported and nothing changes), look up its Admin row, then
      demote or promote and save the decided record. */
  function Decide(t: UsersTables, d: Decision, cid: int): (res: (Outcome, UsersTables))
    requires Valid(t)
    ensures Valid(res.1) && res.1.roots == t.roots && |res.1.users| == |t.users|
    // an unknown target changes nothing
    ensures FirstMatch(t.users, IdKey(cid)).None? ==> res == (Pass, t)
  {
    var target := IdKey(cid);
    var fetched := UserFromTelegramUser(t.users, target, None, None, true, false);
    UserFetchKeepsValid(t, target, None, None, true, false);
    match fetched.0
    case Err(DoesNotExist) => (Pass, t)
    case Err(e) => (Fail(e), t.(users := fetched.1))
    // not reached: without dont_raise the fetch raises instead of returning None
    case Ok(None) => (Pass, t)
    case Ok(Some(auth)) =>
      var t1 := t.(users := fetched.1);
      var adm := AdminFromTelegramUser(t1, target, None, true, true);
      AdminFromTelegramUserKeepsValid(t1, target, None, true, true);
      match adm.0
      case Err(e) => (Fail(e), adm.1)
      case Ok(admin) => Settle(adm.1, auth.row, Decided(auth.account, d), admin, d.AgreeAsAdmin?, cid)
  }

  /** The rest of `btn_give_access` for the target's row `i`, the record
      `rec` to save over it and its Admin row `admin`: agree_admin creates
      the Admin row with chat_id = cid (an existing one is reported), the
      other decisions delete it; then the record is saved. */
  function Settle(t: UsersTables, i: nat, rec: Account, admin: Option<nat>, promote: bool, cid: int)
    : (res: (Outcome, UsersTables))
    requires Valid(t) && i < |t.users|
    requires admin.Some? ==> admin.value < |t.admins|
    ensures Valid(res.1) && res.1.roots == t.roots && |res.1.users| == |t.users|
    // only agree_admin can add an Admin row, and at most one
    ensures !promote ==> |res.1.admins| <= |t.admins|
    ensures promote ==> |t.admins| <= |res.1.admins| <= |t.admins| + 1
  {
    if promote then
      var created := AdminCreate(t, IdKey(cid), Some(cid));
      AdminCreateKeepsAccounts(t, IdKey(cid), Some(cid));
      AdminCreateKeepsValid(t, IdKey(cid), Some(cid));
      assert created.1.roots == t.roots && |created.1.admins| <= |t.admins| + 1 by {
        if created.0.Ok? { AdminCreateSuccess(t, IdKey(cid), Some(cid)); }
      }
      if created.0.Err? && created.0.error != UserAlready then (Fail(created.0.error), created.1)
      else SaveIn(created.1, i, rec)
    else SaveIn(Demote(t, admin), i, rec)
  }

  /** `btn_give_access`: a decision of `actor` about the user of private chat `cid`. */
  function GiveAccess(t: UsersTables, actor: TelegramUser, d: Decision, cid: int): (res: (Outcome, UsersTables))
    requires Valid(t)
    // a non-root actor, or a root target, changes nothing
    ensures RootExists(t, actor) != Ok(true) || RootExists(t, IdKey(cid)) == Ok(true) ==> res.1 == t
    // an unknown target is reported to the root and changes nothing
    ensures HasIdentity(actor) && FirstMatch(t.users, IdKey(cid)).None? ==> res == (Pass, t)
  {
    match RootExists(t, actor)
    case Err(e) => (Fail(e), t)
    case Ok(isRoot) =>
      if !isRoot || RootExists(t, IdKey(cid)) == Ok(true) then (Pass, t)
      else Decide(t, d, cid)
  }

  /** Under the NOT NULL and UNIQUE constraints an id-only key matches
      exactly the account holding that id, so at most one. */
  lemma IdKeyMatchesOne(users: seq<Account>, cid: int, i: nat, j: nat)
    requires UniqueAccounts(users) && forall k :: 0 <= k < |users| ==> NotNull(users[k])
    requires i < |users| && j < |users|
    requires Matches(users[i], IdKey(cid)) && Matches(users[j], IdKey(cid))
    ensures i == j
  {
  }

  /** Fetching by id only re-saves the stored record unchanged. */
  lemma FetchById(t: UsersTables, cid: int)
    requires Valid(t)
    ensures var i := FirstMatch(t.users, IdKey(cid));
            UserFromTelegramUser(t.users, IdKey(cid), None, None, true, false)
              == if i.None? then (Err(DoesNotExist), t.users) else (Ok(Some(Fetched(i.value, t.users[i.value]))), t.users)
  {
    var i := FirstMatch(t.users, IdKey(cid));
    if i.Some? {
      var u := t.users[i.value];
      assert Merge(u, IdKey(cid), None, None) == u;
      assert CanSave(t.users, i.value, u);
      assert t.users[i.value := u] == t.users;
    }
  }

  /** `Admin.from_telegram_user(tg_user, dont_raise=True)` by id only finds
      the first Admin row of the target, if any, and changes nothing. */
  lemma AdminLookupById(t: UsersTables, cid: int)
    requires Valid(t)
    ensures AdminFromTelegramUser(t, IdKey(cid), None, true, true) == (Ok(FirstAdmin(t.users, t.admins, IdKey(cid))), t)
  {
    var a := FirstAdmin(t.users, t.admins, IdKey(cid));
    if a.Some? {
      var ad := t.admins[a.value];
      var u := t.users[ad.user];
      assert Merge(u, IdKey(cid), None, None) == u;
      assert CanSaveAdmin(t.admins, a.value, ad);
      assert CanSave(t.users, ad.user, u);
      assert t.users[ad.user := u] == t.users;
      assert t.admins[a.value := ad] == t.admins;
    }
  }

  /** On a valid store the fetch and the Admin lookup of `btn_give_access`
      change nothing, so the decision acts on the stored target record. */
  lemma DecideOnStored(t: UsersTables, d: Decision, cid: int)
    requires Valid(t) && FirstMatch(t.users, IdKey(cid)).Some?
    ensures var i := FirstMatch(t.users, IdKey(cid)).value;
            Decide(t, d, cid)
              == Settle(t, i, Decided(t.users[i], d), FirstAdmin(t.users, t.admins, IdKey(cid)), d.AgreeAsAdmin?, cid)
  {
    FetchById(t, cid);
    AdminLookupById(t, cid);
    assert t.(users := t.users) == t;
  }

  /** agree_admin for a target without an Admin row: the account is
      unblocked and reset, then one Admin row with chat_id = cid is inserted
      unless another admin already uses that chat. */
  lemma PromoteNew(t: UsersTables, i: nat, cid: int)
    requires Valid(t) && FirstMatch(t.users, IdKey(cid)) == Some(i)
    requires FirstAdmin(t.users, t.admins, IdKey(cid)).None?
    ensures var rec := Decided(t.users[i], AgreeAsAdmin);
            Settle(t, i, rec, None, true, cid)
              == if CanInsertAdmin(t.admins, AdminRow(i, cid))
                 then (Pass, UsersTables(t.users[i := rec], t.admins + [AdminRow(i, cid)], t.roots))
                 else (Fail(IntegrityError), t.(users := t.users[i := rec]))
  {
    var rec := Decided(t.users[i], AgreeAsAdmin);
    CreateForTarget(t, i, cid);
    assert CanSave(t.users[i := rec], i, rec);
    assert t.users[i := rec][i := rec] == t.users[i := rec];
  }

  /** The Admin row agree_admin creates for a target with none: the fetched
      record is reset and saved, then the row is inserted if the constraints admit it. */
  lemma CreateForTarget(t: UsersTables, i: nat, cid: int)
    requires Valid(t) && FirstMatch(t.users, IdKey(cid)) == Some(i)
    requires FirstAdmin(t.users, t.admins, IdKey(cid)).None?
    ensures var rec := Decided(t.users[i], AgreeAsAdmin);
            var row: nat := |t.admins|;
            AdminCreate(t, IdKey(cid), Some(cid))
              == if CanInsertAdmin(t.admins, AdminRow(i, cid))
                 then (Ok(row), UsersTables(t.users[i := rec], t.admins + [AdminRow(i, cid)], t.roots))
                 else (Err(IntegrityError), t.(users := t.users[i := rec]))
  {
    var rec := Decided(t.users[i], AgreeAsAdmin);
    assert Merge(t.users[i], IdKey(cid), Some(false), Some(0)) == rec;
    assert CanSave(t.users, i, rec);
  }

  /** agree_admin for a target that is already an admin only saves the record. */
  lemma PromoteExisting(t: UsersTables, i: nat, cid: int, admin: nat)
    requires Valid(t) && FirstMatch(t.users, IdKey(cid)) == Some(i)
    requires FirstAdmin(t.users, t.admins, IdKey(cid)) == Some(admin)
    ensures var rec := Decided(t.users[i], AgreeAsAdmin);
            Settle(t, i, rec, Some(admin), true, cid) == (Pass, t.(users := t.users[i := rec]))
  {
    assert AdminExists(t, IdKey(cid)) == Ok(true);
    assert CanSave(t.users, i, Decided(t.users[i], AgreeAsAdmin));
  }

  /** agree_user, deny and ban delete the target's Admin row, if any, and save the record. */
  lemma DemoteAny(t: UsersTables, i: nat, d: Decision, cid: int)
    requires Valid(t) && FirstMatch(t.users, IdKey(cid)) == Some(i) && !d.AgreeAsAdmin?
    ensures var admin := FirstAdmin(t.users, t.admins, IdKey(cid));
            var rec := Decided(t.users[i], d);
            Settle(t, i, rec, admin, false, cid) == (Pass, Demote(t, admin).(users := t.users[i := rec]))
  {
    assert CanSave(t.users, i, Decided(t.users[i], d));
  }

  /** What a decision of a root does to a known, non-root target: the
      target's record is saved with the decided flags; agree_user, deny and
      ban delete its Admin row; agree_admin inserts one with chat_id = cid
      unless it has one, and a chat_id clash is refused after the account
      was already unblocked. */
  lemma GiveAccessDecided(t: UsersTables, actor: TelegramUser, d: Decision, cid: int)
    requires Valid(t)
    requires RootExists(t, actor) == Ok(true) && RootExists(t, IdKey(cid)) == Ok(false)
    requires FirstMatch(t.users, IdKey(cid)).Some?
    ensures var i := FirstMatch(t.users, IdKey(cid)).value;
            var users := t.users[i := Decided(t.users[i], d)];
            var admin := FirstAdmin(t.users, t.admins, IdKey(cid));
            var res := GiveAccess(t, actor, d, cid);
            && (!d.AgreeAsAdmin? ==> res == (Pass, Demote(t, admin).(users := users)))
            && (d.AgreeAsAdmin? && admin.Some? ==> res == (Pass, t.(users := users)))
            && (d.AgreeAsAdmin? && admin.None? ==>
                  res == if CanInsertAdmin(t.admins, AdminRow(i, cid))
                         then (Pass, UsersTables(users, t.admins + [AdminRow(i, cid)], t.roots))
                         else (Fail(IntegrityError), t.(users := users)))
  {
    var i := FirstMatch(t.users, IdKey(cid)).value;
    var admin := FirstAdmin(t.users, t.admins, IdKey(cid));
    DecideOnStored(t, d, cid);
    if !d.AgreeAsAdmin? {
      DemoteAny(t, i, d, cid);
    } else if admin.Some? {
      PromoteExisting(t, i, cid, admin.value);
    } else {
      PromoteNew(t, i, cid);
    }
  }

  /** Deleting the target's first Admin row leaves it no Admin row, even
      after its record is saved with the same id and username. */
  lemma NoAdminAfterDemote(t: UsersTables, i: nat, cid: int, rec: Account)
    requires Valid(t) && FirstMatch(t.users, IdKey(cid)) == Some(i)
    requires rec.telegramId == t.users[i].telegramId && rec.username == t.users[i].username
    ensures var t1 := Demote(t, FirstAdmin(t.users, t.admins, IdKey(cid)));
            AdminExists(t1.(users := t1.users[i := rec]), IdKey(cid)) == Ok(false)
  {
    var key := IdKey(cid);
    var admin := FirstAdmin(t.users, t.admins, key);
    var t1 := Demote(t, admin);
    var t2 := t1.(users := t1.users[i := rec]);
    OnlyTargetMatches(t.users, i, cid);
    DemoteRemovesTargetRow(t, i, cid);
    NoRowMatches(t2, i, key);
  }

  /** Deleting the first Admin row of the target leaves no Admin row for its account. */
  lemma DemoteRemovesTargetRow(t: UsersTables, i: nat, cid: int)
    requires Valid(t) && FirstMatch(t.users, IdKey(cid)) == Some(i)
    ensures var t1 := Demote(t, FirstAdmin(t.users, t.admins, IdKey(cid)));
            forall b :: 0 <= b < |t1.admins| ==> t1.admins[b].user != i
  {
    var admin := FirstAdmin(t.users, t.admins, IdKey(cid));
    OnlyFirstAdminRow(t, i, cid);
    if admin.Some? {
      DeleteOnlyRow(t.admins, admin.value, i);
    }
  }

  /** Deleting the only row of a user from the Admin table. */
  lemma DeleteOnlyRow(admins: seq<AdminRow>, k: nat, i: nat)
    requires k < |admins|
    requires forall b :: 0 <= b < |admins| && admins[b].user == i ==> b == k
    ensures forall b :: 0 <= b < |Without(admins, k)| ==> Without(admins, k)[b].user != i
  {
  }

  /** With row `i` the only possible match and no Admin row for it, the key is no admin. */
  lemma NoRowMatches(t: UsersTables, i: nat, key: TelegramUser)
    requires HasIdentity(key)
    requires forall j :: 0 <= j < |t.users| && j != i ==> !Matches(t.users[j], key)
    requires forall b :: 0 <= b < |t.admins| ==> t.admins[b].user != i
    ensures AdminExists(t, key) == Ok(false)
  {
  }

  /** No other account matches the target's id-only key. */
  lemma OnlyTargetMatches(users: seq<Account>, i: nat, cid: int)
    requires UniqueAccounts(users) && forall k :: 0 <= k < |users| ==> NotNull(users[k])
    requires FirstMatch(users, IdKey(cid)) == Some(i)
    ensures forall j :: 0 <= j < |users| && j != i ==> !Matches(users[j], IdKey(cid))
  {
  }

  /** An Admin row of the target's account is its first Admin row. */
  lemma OnlyFirstAdminRow(t: UsersTables, i: nat, cid: int)
    requires Valid(t) && FirstMatch(t.users, IdKey(cid)) == Some(i)
    ensures forall b :: 0 <= b < |t.admins| && t.admins[b].user == i ==> FirstAdmin(t.users, t.admins, IdKey(cid)) == Some(b)
  {
    OnlyTargetMatches(t.users, i, cid);
    forall b | 0 <= b < |t.admins| && t.admins[b].user == i
      ensures FirstAdmin(t.users, t.admins, IdKey(cid)) == Some(b)
    {
      assert AdminRowMatches(t.users, t.admins[b], IdKey(cid));
    }
  }

  /** A saved record with the same id and username keeps the first match. */
  lemma SavedStillFirst(users: seq<Account>, i: nat, cid: int, rec: Account)
    requires FirstMatch(users, IdKey(cid)) == Some(i)
    requires rec.telegramId == users[i].telegramId && rec.username == users[i].username
    ensures FirstMatch(users[i := rec], IdKey(cid)) == Some(i)
  {
    FirstMatchUpdate(users, i, rec, IdKey(cid));
  }

  /** The flags of the saved record decide the target's authorization and ban. */
  lemma SavedFlags(users: seq<Account>, i: nat, cid: int, rec: Account)
    requires FirstMatch(users, IdKey(cid)) == Some(i)
    requires rec.telegramId == users[i].telegramId && rec.username == users[i].username
    ensures IsAuthorizedFromTelegramUser(users[i := rec], IdKey(cid)) == Ok(!rec.blocked)
    ensures IsBannedFromTelegramUser(users[i := rec], IdKey(cid)) == Ok(IsBanned(rec))
  {
    SavedStillFirst(users, i, cid, rec);
  }

  /** The target keeps its Admin row when agree_admin finds one. */
  lemma AdminAfterPromoteExisting(t: UsersTables, i: nat, cid: int, rec: Account)
    requires Valid(t) && FirstMatch(t.users, IdKey(cid)) == Some(i)
    requires FirstAdmin(t.users, t.admins, IdKey(cid)).Some?
    requires rec.telegramId == t.users[i].telegramId && rec.username == t.users[i].username
    requires CanSave(t.users, i, rec)
    ensures Valid(t.(users := t.users[i := rec]))
    ensures AdminExists(t.(users := t.users[i := rec]), IdKey(cid)) == Ok(true)
  {
    DemoteKeepsValid(t, None, i, rec);
    AdminRowKept(t, i, cid, rec);
  }

  /** Saving an account with the same identity keeps the Admin row joined to it. */
  lemma AdminRowKept(t: UsersTables, i: nat, cid: int, rec: Account)
    requires Valid(t) && FirstMatch(t.users, IdKey(cid)) == Some(i)
    requires FirstAdmin(t.users, t.admins, IdKey(cid)).Some?
    requires rec.telegramId == t.users[i].telegramId && rec.username == t.users[i].username
    ensures AdminExists(t.(users := t.users[i := rec]), IdKey(cid)) == Ok(true)
  {
    var a := FirstAdmin(t.users, t.admins, IdKey(cid)).value;
    IdKeyMatchesOne(t.users, cid, i, t.admins[a].user);
    assert AdminRowMatches(t.users[i := rec], t.admins[a], IdKey(cid));
  }

  /** The target is an admin after agree_admin inserts its Admin row. */
  lemma AdminAfterPromoteNew(t: UsersTables, i: nat, cid: int, rec: Account)
    requires Valid(t) && FirstMatch(t.users, IdKey(cid)) == Some(i)
    requires rec.telegramId == t.users[i].telegramId && rec.username == t.users[i].username
    requires CanSave(t.users, i, rec) && CanInsertAdmin(t.admins, AdminRow(i, cid))
    ensures var t1 := UsersTables(t.users[i := rec], t.admins + [AdminRow(i, cid)], t.roots);
            Valid(t1) && AdminExists(t1, IdKey(cid)) == Ok(true)
  {
    var t1 := UsersTables(t.users[i := rec], t.admins + [AdminRow(i, cid)], t.roots);
    assert AdminRowMatches(t1.users, t1.admins[|t.admins|], IdKey(cid));
  }

  /** After a decision that went through, the target is authorized exactly
      when agreed, banned after a ban, an admin exactly after agree_admin;
      roots are untouched and the store keeps its constraints. */
  lemma GiveAccessRoles(t: UsersTables, actor: TelegramUser, d: Decision, cid: int)
    requires Valid(t)
    requires RootExists(t, actor) == Ok(true) && RootExists(t, IdKey(cid)) == Ok(false)
    requires FirstMatch(t.users, IdKey(cid)).Some?
    requires GiveAccess(t, actor, d, cid).0.Pass?
    ensures var res := GiveAccess(t, actor, d, cid);
            && Valid(res.1)
            && res.1.roots == t.roots
            && IsAuthorizedFromTelegramUser(res.1.users, IdKey(cid)) == Ok(d.AgreeAsUser? || d.AgreeAsAdmin?)
            && (d.Ban? ==> IsBannedFromTelegramUser(res.1.users, IdKey(cid)) == Ok(true))
            && AdminExists(res.1, IdKey(cid)) == Ok(d.AgreeAsAdmin?)
  {
    GiveAccessDecided(t, actor, d, cid);
    DecisionRoles(t, d, cid, GiveAccess(t, actor, d, cid));
  }

  /** The tables a decision that went through leaves, as GiveAccessDecided
      describes them, keep the constraints and give the target its new roles. */
  lemma DecisionRoles(t: UsersTables, d: Decision, cid: int, res: (Outcome, UsersTables))
    requires Valid(t) && FirstMatch(t.users, IdKey(cid)).Some? && res.0.Pass?
    requires var i := FirstMatch(t.users, IdKey(cid)).value;
             var users := t.users[i := Decided(t.users[i], d)];
             var admin := FirstAdmin(t.users, t.admins, IdKey(cid));
             && (!d.AgreeAsAdmin? ==> res == (Pass, Demote(t, admin).(users := users)))
             && (d.AgreeAsAdmin? && admin.Some? ==> res == (Pass, t.(users := users)))
             && (d.AgreeAsAdmin? && admin.None? ==>
                   res == if CanInsertAdmin(t.admins, AdminRow(i, cid))
                          then (Pass, UsersTables(users, t.admins + [AdminRow(i, cid)], t.roots))
                          else (Fail(IntegrityError), t.(users := users)))
    ensures && Valid(res.1)
            && res.1.roots == t.roots
            && IsAuthorizedFromTelegramUser(res.1.users, IdKey(cid)) == Ok(d.AgreeAsUser? || d.AgreeAsAdmin?)
            && (d.Ban? ==> IsBannedFromTelegramUser(res.1.users, IdKey(cid)) == Ok(true))
            && AdminExists(res.1, IdKey(cid)) == Ok(d.AgreeAsAdmin?)
  {
    var i := FirstMatch(t.users, IdKey(cid)).value;
    var rec := Decided(t.users[i], d);
    var admin := FirstAdmin(t.users, t.admins, IdKey(cid));
    assert CanSave(t.users, i, rec);
    SavedFlags(t.users, i, cid, rec);
    if !d.AgreeAsAdmin? {
      NoAdminAfterDemote(t, i, cid, rec);
      DemoteKeepsValid(t, admin, i, rec);
    } else if admin.Some? {
      AdminAfterPromoteExisting(t, i, cid, rec);
    } else {
      AdminAfterPromoteNew(t, i, cid, rec);
    }
  }

  /** Deleting an Admin row and saving an admissible record keep the constraints. */
  lemma DemoteKeepsValid(t: UsersTables, admin: Option<nat>, i: nat, rec: Account)
    requires Valid(t) && (admin.Some? ==> admin.value < |t.admins|)
    requires i < |t.users| && CanSave(t.users, i, rec)
    ensures Valid(Demote(t, admin).(users := t.users[i := rec]))
  {
    var t1 := Demote(t, admin);
    if admin.Some? {
      var a := admin.value;
      forall b | 0 <= b < |t1.admins|
        ensures t1.admins[b] == t.admins[if b >= a then b + 1 else b]
      {
      }
    }
  }

  /** The record /addUser inserts for a parsed key: NewAccount as the
      source builds it, or NewAccountDefaulted, the evidently intended one. */
  function AddedAccount(key: TelegramUser, defaulted: bool): Account {
    if defaulted then NewAccountDefaulted(key, Some(false), Some(0)) else NewAccount(key, Some(false), Some(0))
  }

  /** `add_user_from_type(m, AuthorizedUser)`: the text after the first
      space is parsed and the key is inserted with blocked=False and no
      pending request. A command with no argument does nothing; a
      ParseException and an existing account are reported to the admin and
      change nothing; any other error escapes. */
  function AddUser(users: seq<Account>, text: string, defaulted: bool): (res: (Outcome, seq<Account>))
    ensures ArgumentOf(text).None? ==> res == (Pass, users)
    ensures ArgumentOf(text).Some? && UsernameOrTelegramId(ArgumentOf(text).value).Err? ==> res == (Pass, users)
    ensures ArgumentOf(text).Some? && UsernameOrTelegramId(ArgumentOf(text).value).Ok? ==>
              var key := UsernameOrTelegramId(ArgumentOf(text).value).value;
              var a := AddedAccount(key, defaulted);
              res == if FirstMatch(users, key).Some? then (Pass, users)
                     else if CanInsert(users, a) then (Pass, users + [a])
                     else (Fail(IntegrityError), users)
  {
    match ArgumentOf(text)
    case None => (Pass, users)
    case Some(arg) =>
      match UsernameOrTelegramId(arg)
      case Err(_) => (Pass, users)
      case Ok(key) =>
        var created := CreateUser(users, key, AddedAccount(key, defaulted));
        if created.0.Ok? || created.0 == Err(UserAlready) then (Pass, created.1)
        else (Fail(created.0.error), created.1)
  }

  /** `handle_add_user`: only an admin may add users. */
  function AddUserCommand(t: UsersTables, from: TelegramUser, text: string, defaulted: bool)
    : (res: (Outcome, UsersTables))
    ensures AdminExists(t, from).Err? ==> res == (Fail(AdminExists(t, from).error), t)
    ensures AdminExists(t, from) == Ok(false) ==> res == (Pass, t)
    ensures AdminExists(t, from) == Ok(true) ==>
              var added := AddUser(t.users, text, defaulted);
              res == (added.0, t.(users := added.1))
  {
    match AdminExists(t, from)
    case Err(e) => (Fail(e), t)
    case Ok(isAdmin) =>
      if !isAdmin then (Pass, t)
      else
        var added := AddUser(t.users, text, defaulted);
        (added.0, t.(users := added.1))
  }

  /** The argument of a command is what follows its first space. */
  lemma {:induction false} ArgumentAfterCommand(command: string, arg: string)
    requires forall i :: 0 <= i < |command| ==> command[i] != ' '
    ensures ArgumentOf(command + " " + arg) == Some(arg)
  {
    if |command| > 0 {
      assert (command + " " + arg)[1..] == command[1..] + " " + arg;
      ArgumentAfterCommand(command[1..], arg);
    } else {
      assert command + " " + arg == [' '] + arg;
    }
  }

  /** `/addUser arg` and `/addAdmin arg` both hand `arg` to `add_user_from_type`. */
  lemma CommandArgument(arg: string)
    ensures ArgumentOf("/addUser " + arg) == Some(arg)
    ensures ArgumentOf("/addAdmin " + arg) == Some(arg)
  {
    var addUser, addAdmin := "/addUser", "/addAdmin";
    assert forall i :: 0 <= i < |addUser| ==> addUser[i] != ' ';
    assert forall i :: 0 <= i < |addAdmin| ==> addAdmin[i] != ' ';
    ArgumentAfterCommand(addUser, arg);
    ArgumentAfterCommand(addAdmin, arg);
    assert addUser + " " + arg == "/addUser " + arg;
    assert addAdmin + " " + arg == "/addAdmin " + arg;
  }

  /** `/addUser @handle` parses to the handle's key. */
  lemma AddUserHandleArgument(handle: string)
    requires 5 <= |handle| <= 32 && forall i :: 0 <= i < |handle| ==> IsWordChar(handle[i])
    ensures ArgumentOf("/addUser @" + handle) == Some("@" + handle)
    ensures UsernameOrTelegramId("@" + handle) == Ok(HandleKey(handle))
  {
    HandleArgument(handle);
    ParseHandle(handle, false);
  }

  /** `/addUser @handle` and `/addAdmin @handle` hand `@handle` to the parser. */
  lemma HandleArgument(handle: string)
    ensures ArgumentOf("/addUser @" + handle) == Some("@" + handle)
    ensures ArgumentOf("/addAdmin @" + handle) == Some("@" + handle)
  {
    var arg := "@" + handle;
    assert "/addUser @" + handle == "/addUser " + arg by {
      assert "/addUser @" == "/addUser " + "@";
      assert ("/addUser " + "@") + handle == "/addUser " + ("@" + handle);
    }
    assert "/addAdmin @" + handle == "/addAdmin " + arg by {
      assert "/addAdmin @" == "/addAdmin " + "@";
      assert ("/addAdmin " + "@") + handle == "/addAdmin " + ("@" + handle);
    }
    CommandArgument(arg);
  }

  /** `/addUser <id>` parses to the id's key. */
  lemma AddUserIdArgument(id: nat)
    requires id >= 1000
    ensures ArgumentOf("/addUser " + Decimal.NatToString(id)) == Some(Decimal.NatToString(id))
    ensures UsernameOrTelegramId(Decimal.NatToString(id)) == Ok(IdKey(id))
  {
    CommandArgument(Decimal.NatToString(id));
    ParseId(id);
  }

  /** As written, `/addUser @handle` for a handle nobody holds yet is
      refused by NOT NULL: the parsed key has neither an id nor a first name. */
  lemma AddUserByHandleRefused(users: seq<Account>, handle: string)
    requires 5 <= |handle| <= 32 && forall i :: 0 <= i < |handle| ==> IsWordChar(handle[i])
    requires forall j :: 0 <= j < |users| ==> NotNull(users[j]) && users[j].username != Some(handle)
    ensures AddUser(users, "/addUser @" + handle, false) == (Fail(IntegrityError), users)
  {
    AddUserHandleArgument(handle);
  }

  /** As written, `/addUser <id>` for an unknown id is refused by NOT NULL
      on the first name the parsed key lacks. */
  lemma AddUserByIdRefused(users: seq<Account>, id: nat)
    requires id >= 1000
    requires forall j :: 0 <= j < |users| ==> NotNull(users[j]) && users[j].telegramId != Some(id)
    ensures AddUser(users, "/addUser " + Decimal.NatToString(id), false) == (Fail(IntegrityError), users)
  {
    AddUserIdArgument(id);
  }

  /** With the defaulting record, `/addUser @handle` pre-authorizes the
      handle: the row waits with the default id, the user's first /start
      finds it by the handle and binds the real id, and from then on the
      user is authorized. */
  lemma AddUserByHandleDefaulted(users: seq<Account>, handle: string, contact: TelegramUser)
    requires 5 <= |handle| <= 32 && forall i :: 0 <= i < |handle| ==> IsWordChar(handle[i])
    requires forall j :: 0 <= j < |users| ==>
               && NotNull(users[j]) && users[j].username != Some(handle) && users[j].telegramId != contact.id
               && users[j].telegramId != Some(DefaultTelegramId)
    requires contact.id.Some? && contact.username == Some(handle)
    ensures var row := Account(Some(DefaultTelegramId), Some(""), Some(""), Some(handle), false, 0);
            var added := AddUser(users, "/addUser @" + handle, true);
            var seen := UserFromTelegramUser(added.1, contact, None, None, true, false);
            var bound := Merge(row, contact, None, None);
            && added == (Pass, users + [row])
            && bound.telegramId == contact.id && !bound.blocked
            && seen == (Ok(Some(Fetched(|users|, bound))), users + [bound])
            && IsAuthorizedFromTelegramUser(seen.1, contact) == Ok(true)
  {
    AddUserHandleArgument(handle);
    var row := Account(Some(DefaultTelegramId), Some(""), Some(""), Some(handle), false, 0);
    assert AddedAccount(HandleKey(handle), true) == row;
    assert FirstMatch(users, HandleKey(handle)).None?;
    assert CanInsert(users, row);
    FirstMatchAppend(users, row, contact);
    var bound := Merge(row, contact, None, None);
    assert CanSave(users + [row], |users|, bound);
    assert (users + [row])[|users| := bound] == users + [bound];
    FirstMatchAppend(users, bound, contact);
  }

  /** With the defaulting record, `/addUser <id>` authorizes that id. */
  lemma AddUserByIdDefaulted(users: seq<Account>, id: nat, contact: TelegramUser)
    requires id >= 1000
    requires forall j :: 0 <= j < |users| ==> NotNull(users[j]) && !Matches(users[j], contact)
    requires forall j :: 0 <= j < |users| ==> users[j].username != Some("")
    requires contact.id == Some(id)
    ensures var added := AddUser(users, "/addUser " + Decimal.NatToString(id), true);
            && added == (Pass, users + [Account(Some(id), Some(""), Some(""), Some(""), false, 0)])
            && IsAuthorizedFromTelegramUser(added.1, contact) == Ok(true)
  {
    AddUserIdArgument(id);
    var row := Account(Some(id), Some(""), Some(""), Some(""), false, 0);
    assert AddedAccount(IdKey(id), true) == row;
    assert FirstMatch(users, IdKey(id)).None?;
    assert CanInsert(users, row);
    FirstMatchAppend(users, row, contact);
  }

  /** UNIQUE on username with '' as the stored default: once one account
      without a username exists, creating another is refused, whatever its
      Telegram id. */
  lemma SecondAccountWithoutUsernameRefused(users: seq<Account>, k: nat, key: TelegramUser)
    requires k < |users| && users[k].username == Some("")
    requires HasIdentity(key) && key.username.None? && FirstMatch(users, key).None?
    ensures CreateUser(users, key, NewAccount(key, None, None)) == (Err(IntegrityError), users)
  {
    assert !Compatible(NewAccount(key, None, None), users[k]);
  }

  /** `update_admin_user`: in a private chat the sender's Admin row, if any,
      is refreshed with the chat's id; elsewhere nothing happens. */
  function UpdateAdminUser(t: UsersTables, from: TelegramUser, privateChat: Option<int>)
    : (res: (Result<Option<nat>>, UsersTables))
    requires Valid(t)
    ensures privateChat.None? ==> res == (Ok(None), t)
    ensures privateChat.Some? ==> res == AdminFromTelegramUser(t, from, privateChat, true, true)
    ensures Valid(res.1) && res.1.roots == t.roots
    ensures |res.1.admins| == |t.admins| && |res.1.users| == |t.users|
    ensures forall b :: 0 <= b < |t.admins| ==> res.1.admins[b].user == t.admins[b].user
  {
    if privateChat.None? then (Ok(None), t)
    else
      AdminFromTelegramUserKeepsValid(t, from, privateChat, true, true);
      AdminFromTelegramUser(t, from, privateChat, true, true)
  }

  /** `handle_add_admin`: a root sender first refreshes its own Admin row,
      then the argument is parsed as for /addUser. As written,
      `add_user_from_type` passes `blocked=` and `access_requested_count=`
      to `Admin.create_from_telegram_user`, which takes neither, so the call
      raises TypeError before any row is read. With `fixed`, the parsed key
      is promoted by the create as it is defined. */
  function AddAdminCommand(t: UsersTables, from: TelegramUser, privateChat: Option<int>, text: string, fixed: bool)
    : (res: (Outcome, UsersTables))
    requires Valid(t)
    ensures RootExists(t, from).Err? ==> res == (Fail(RootExists(t, from).error), t)
    ensures RootExists(t, from) == Ok(false) ==> res == (Pass, t)
    // a root sender: its own Admin row is refreshed first, and a failed refresh escapes
    ensures RootExists(t, from) == Ok(true) ==>
              var refreshed := UpdateAdminUser(t, from, privateChat);
              res == if refreshed.0.Err? then (Fail(refreshed.0.error), refreshed.1)
                     else PromoteArgument(refreshed.1, text, fixed)
    ensures Valid(res.1) && res.1.roots == t.roots
  {
    match RootExists(t, from)
    case Err(e) => (Fail(e), t)
    case Ok(isRoot) =>
      if !isRoot then (Pass, t)
      else
        var refreshed := UpdateAdminUser(t, from, privateChat);
        if refreshed.0.Err? then (Fail(refreshed.0.error), refreshed.1)
        else PromoteArgument(refreshed.1, text, fixed)
  }

  /** The part of `add_user_from_type(m, Admin)` after the sender was refreshed. */
  function PromoteArgument(t: UsersTables, text: string, fixed: bool): (res: (Outcome, UsersTables))
    requires Valid(t)
    ensures Valid(res.1) && res.1.roots == t.roots
    ensures !fixed ==> res.1 == t
    ensures !fixed && ArgumentOf(text).Some? && UsernameOrTelegramId(ArgumentOf(text).value).Ok? ==> res.0 == Fail(TypeError)
    ensures fixed && ArgumentOf(text).Some? && UsernameOrTelegramId(ArgumentOf(text).value).Ok? ==>
              var created := AdminCreate(t, UsernameOrTelegramId(ArgumentOf(text).value).value, None);
              && res.1 == created.1
              && (res.0 == Pass <==> created.0.Ok? || created.0 == Err(UserAlready))
  {
    match ArgumentOf(text)
    case None => (Pass, t)
    case Some(arg) =>
      match UsernameOrTelegramId(arg)
      case Err(_) => (Pass, t)
      case Ok(key) =>
        if !fixed then (Fail(TypeError), t)
        else
          var created := AdminCreate(t, key, None);
          AdminCreateKeepsValid(t, key, None);
          if created.0.Ok? || created.0 == Err(UserAlready) then (Pass, created.1)
          else (Fail(created.0.error), created.1)
  }

  /** As written, /addAdmin never adds an Admin row: whatever the text, the
      Admin table keeps its rows, each for the same account. */
  lemma AddAdminNeverPromotes(t: UsersTables, from: TelegramUser, privateChat: Option<int>, text: string)
    requires Valid(t)
    ensures var res := AddAdminCommand(t, from, privateChat, text, false);
            && |res.1.admins| == |t.admins| && |res.1.users| == |t.users|
            && forall b :: 0 <= b < |t.admins| ==> res.1.admins[b].user == t.admins[b].user
  {
  }

  /** As written, a root's `/addAdmin @handle` raises TypeError. */
  lemma AddAdminByHandleRefused(t: UsersTables, from: TelegramUser, privateChat: Option<int>, handle: string)
    requires Valid(t) && RootExists(t, from) == Ok(true)
    requires UpdateAdminUser(t, from, privateChat).0.Ok?
    requires 5 <= |handle| <= 32 && forall i :: 0 <= i < |handle| ==> IsWordChar(handle[i])
    ensures AddAdminCommand(t, from, privateChat, "/addAdmin @" + handle, false)
            == (Fail(TypeError), UpdateAdminUser(t, from, privateChat).1)
  {
    PromoteHandleUnfixed(UpdateAdminUser(t, from, privateChat).1, handle);
  }

  lemma PromoteHandleUnfixed(t: UsersTables, handle: string)
    requires Valid(t)
    requires 5 <= |handle| <= 32 && forall i :: 0 <= i < |handle| ==> IsWordChar(handle[i])
    ensures PromoteArgument(t, "/addAdmin @" + handle, false) == (Fail(TypeError), t)
  {
    HandleArgument(handle);
    ParseHandle(handle, false);
  }

  /** Fixed, a root's `/addAdmin @handle` for an account that is not yet an
      admin promotes it: the command passes and the handle is an admin. */
  lemma AddAdminByHandlePromotes(t: UsersTables, from: TelegramUser, privateChat: Option<int>, handle: string)
    requires Valid(t) && RootExists(t, from) == Ok(true)
    requires UpdateAdminUser(t, from, privateChat).0.Ok?
    requires 5 <= |handle| <= 32 && forall i :: 0 <= i < |handle| ==> IsWordChar(handle[i])
    ensures var t1 := UpdateAdminUser(t, from, privateChat).1;
            var res := AddAdminCommand(t, from, privateChat, "/addAdmin @" + handle, true);
            && (AdminCreate(t1, HandleKey(handle), None).0.Ok? ==>
                  res.0 == Pass && AdminExists(res.1, HandleKey(handle)) == Ok(true))
            && (AdminExists(t1, HandleKey(handle)) == Ok(true) ==> res == (Pass, t1))
  {
    PromoteHandle(UpdateAdminUser(t, from, privateChat).1, handle);
  }

  lemma PromoteHandle(t: UsersTables, handle: string)
    requires Valid(t)
    requires 5 <= |handle| <= 32 && forall i :: 0 <= i < |handle| ==> IsWordChar(handle[i])
    ensures var res := PromoteArgument(t, "/addAdmin @" + handle, true);
            && (AdminCreate(t, HandleKey(handle), None).0.Ok? ==>
                  res.0 == Pass && AdminExists(res.1, HandleKey(handle)) == Ok(true))
            && (AdminExists(t, HandleKey(handle)) == Ok(true) ==> res == (Pass, t))
  {
    HandleArgument(handle);
    ParseHandle(handle, false);
    var created := AdminCreate(t, HandleKey(handle), None);
    if created.0.Ok? {
      AdminCreateSuccess(t, HandleKey(handle), None);
    }
  }

  /** A newcomer with Telegram id 42 asks for access on a store holding
      only the root, and the root agrees as admin: the account ends up
      unblocked with no pending request, and an Admin row for it with
      chat_id 42 follows the root's. */
  lemma RequestThenAgreeAsAdmin()
    ensures var t0 := UsersTables([Bootstrap.RootAccount("rootuser")], [AdminRow(0, DefaultTelegramId)], [RootRow(0)]);
            var root := TelegramUser(Some(7), Some("Rob"), None, Some("rootuser"));
            var newcomer := TelegramUser(Some(42), Some("Ann"), None, None);
            var requested := RequestAccess(t0.users, newcomer);
            var t1 := t0.(users := requested.1);
            && Valid(t1)
            && requested == (Pass, t0.users + [Account(Some(42), Some("Ann"), Some(""), Some(""), true, 1)])
            && GiveAccess(t1, root, AgreeAsAdmin, 42)
                 == (Pass, UsersTables(t0.users + [Account(Some(42), Some("Ann"), Some(""), Some(""), false, 0)],
                                       [AdminRow(0, DefaultTelegramId), AdminRow(1, 42)], [RootRow(0)]))
  {
    NewcomerRequestsAccess();
    RootAgreesAsAdmin();
  }

  /** The request half: the newcomer's account is inserted blocked with one pending request. */
  lemma NewcomerRequestsAccess()
    ensures var t0 := UsersTables([Bootstrap.RootAccount("rootuser")], [AdminRow(0, DefaultTelegramId)], [RootRow(0)]);
            var newcomer := TelegramUser(Some(42), Some("Ann"), None, None);
            var requested := RequestAccess(t0.users, newcomer);
            && Valid(t0.(users := requested.1))
            && requested == (Pass, t0.users + [Account(Some(42), Some("Ann"), Some(""), Some(""), true, 1)])
  {
    var t0 := UsersTables([Bootstrap.RootAccount("rootuser")], [AdminRow(0, DefaultTelegramId)], [RootRow(0)]);
    var newcomer := TelegramUser(Some(42), Some("Ann"), None, None);
    var a := NewAccount(newcomer, Some(true), Some(1));
    assert a == Account(Some(42), Some("Ann"), Some(""), Some(""), true, 1);
    assert FirstMatch(t0.users, newcomer).None?;
    FirstRequest(t0.users, newcomer);
    assert Valid(t0.(users := t0.users + [a]));
  }

  /** The decision half: the root's agree-as-admin unblocks the account and adds its Admin row. */
  lemma RootAgreesAsAdmin()
    ensures var requester := Account(Some(42), Some("Ann"), Some(""), Some(""), true, 1);
            var t1 := UsersTables([Bootstrap.RootAccount("rootuser")] + [requester], [AdminRow(0, DefaultTelegramId)], [RootRow(0)]);
            var root := TelegramUser(Some(7), Some("Rob"), None, Some("rootuser"));
            && Valid(t1)
            && GiveAccess(t1, root, AgreeAsAdmin, 42)
                 == (Pass, UsersTables([Bootstrap.RootAccount("rootuser")] + [Account(Some(42), Some("Ann"), Some(""), Some(""), false, 0)],
                                       [AdminRow(0, DefaultTelegramId), AdminRow(1, 42)], [RootRow(0)]))
  {
    var requester := Account(Some(42), Some("Ann"), Some(""), Some(""), true, 1);
    var t1 := UsersTables([Bootstrap.RootAccount("rootuser")] + [requester], [AdminRow(0, DefaultTelegramId)], [RootRow(0)]);
    var root := TelegramUser(Some(7), Some("Rob"), None, Some("rootuser"));
    RootAndRequester();
    AgreeAsAdminNewTarget(t1, root, 1, 42);
    AgreedRequester();
  }

  /** agree_admin's record for the requester of the example, saved over row 1. */
  lemma AgreedRequester()
    ensures var requester := Account(Some(42), Some("Ann"), Some(""), Some(""), true, 1);
            var users := [Bootstrap.RootAccount("rootuser")] + [requester];
            var agreed := Account(Some(42), Some("Ann"), Some(""), Some(""), false, 0);
            && Decided(users[1], AgreeAsAdmin) == agreed
            && users[1 := agreed] == [Bootstrap.RootAccount("rootuser")] + [agreed]
            && [AdminRow(0, DefaultTelegramId)] + [AdminRow(1, 42)] == [AdminRow(0, DefaultTelegramId), AdminRow(1, 42)]
  {
    var requester := Account(Some(42), Some("Ann"), Some(""), Some(""), true, 1);
    var agreed := Account(Some(42), Some("Ann"), Some(""), Some(""), false, 0);
    var users := [Bootstrap.RootAccount("rootuser")] + [requester];
    assert users[1 := agreed] == [Bootstrap.RootAccount("rootuser")] + [agreed];
  }

  /** A root's agree-as-admin about a known, non-root target with no Admin
      row saves the agreed record and inserts the row (i, cid) when it fits. */
  lemma AgreeAsAdminNewTarget(t: UsersTables, actor: TelegramUser, i: nat, cid: int)
    requires Valid(t)
    requires RootExists(t, actor) == Ok(true) && RootExists(t, IdKey(cid)) == Ok(false)
    requires FirstMatch(t.users, IdKey(cid)) == Some(i)
    requires FirstAdmin(t.users, t.admins, IdKey(cid)).None?
    requires CanInsertAdmin(t.admins, AdminRow(i, cid))
    ensures GiveAccess(t, actor, AgreeAsAdmin, cid)
              == (Pass, UsersTables(t.users[i := Decided(t.users[i], AgreeAsAdmin)], t.admins + [AdminRow(i, cid)], t.roots))
  {
    GiveAccessDecided(t, actor, AgreeAsAdmin, cid);
  }

  /** The store after the request: the root is a root, the requester has
      row 1, no Admin row and no Root row, and its Admin row (1, 42) fits. */
  lemma RootAndRequester()
    ensures var requester := Account(Some(42), Some("Ann"), Some(""), Some(""), true, 1);
            var t1 := UsersTables([Bootstrap.RootAccount("rootuser")] + [requester], [AdminRow(0, DefaultTelegramId)], [RootRow(0)]);
            var root := TelegramUser(Some(7), Some("Rob"), None, Some("rootuser"));
            && Valid(t1)
            && RootExists(t1, root) == Ok(true) && RootExists(t1, IdKey(42)) == Ok(false)
            && FirstMatch(t1.users, IdKey(42)) == Some(1)
            && FirstAdmin(t1.users, t1.admins, IdKey(42)).None?
            && CanInsertAdmin(t1.admins, AdminRow(1, 42))
  {
    var requester := Account(Some(42), Some("Ann"), Some(""), Some(""), true, 1);
    var t1 := UsersTables([Bootstrap.RootAccount("rootuser"), requester], [AdminRow(0, DefaultTelegramId)], [RootRow(0)]);
    var root := TelegramUser(Some(7), Some("Rob"), None, Some("rootuser"));
    assert [Bootstrap.RootAccount("rootuser")] + [requester] == t1.users;
    assert Valid(t1);
    assert RootRowMatches(t1, t1.roots[0], root) by {
      assert AdminRowMatches(t1.users, t1.admins[0], root);
    }
    assert RootExists(t1, IdKey(42)) == Ok(false);
    assert FirstMatch(t1.users, IdKey(42)) == Some(1);
    assert FirstAdmin(t1.users, t1.admins, IdKey(42)).None?;
  }

  /** `btn_req_access` on the users database. */
  method ReqAccessButton(db: UsersDb, from: TelegramUser) returns (o: Outcome)
    requires db.Valid()
    modifies db
    ensures (o, db.users) == RequestAccess(old(db.users), from)
    ensures db.admins == old(db.admins) && db.roots == old(db.roots)
    ensures db.Valid()
  {
    var banned := IsBannedFromTelegramUser(db.users, from);
    if banned.Err? {
      return Fail(banned.error);
    }
    var fetched := db.FromTelegramUser(from, None, None, true, false);
    if fetched.Err? {
      if fetched.error == DoesNotExist {
        var created := db.CreateFromTelegramUser(from, Some(true), Some(1));
        o := if created.Ok? then Pass else Fail(created.error);
        return;
      }
      return Fail(fetched.error);
    }
    if fetched.value.None? {
      // not reached: without dont_raise the fetch raises instead
      return Pass;
    }
    var auth := fetched.value.value;
    if auth.account.blocked {
      o := db.SaveUser(auth.row, auth.account.(accessRequestedCount := auth.account.accessRequestedCount + 1));
    } else {
      o := Pass;
    }
  }

  /** `btn_give_access` on the users database. */
  method GiveAccessButton(db: UsersDb, actor: TelegramUser, d: Decision, cid: int) returns (o: Outcome)
    requires db.Valid()
    modifies db
    ensures (o, db.Tables()) == GiveAccess(old(db.Tables()), actor, d, cid)
    ensures db.Valid()
  {
    var target := IdKey(cid);
    var actorIsRoot := RootExists(db.Tables(), actor);
    if actorIsRoot.Err? {
      return Fail(actorIsRoot.error);
    }
    if !actorIsRoot.value || RootExists(db.Tables(), target) == Ok(true) {
      return Pass;
    }
    o := DecideOn(db, d, cid);
  }

  /** `btn_give_access` once the actor is root and the target is not. */
  method DecideOn(db: UsersDb, d: Decision, cid: int) returns (o: Outcome)
    requires db.Valid()
    modifies db
    ensures (o, db.Tables()) == Decide(old(db.Tables()), d, cid)
    ensures db.Valid()
  {
    var target := IdKey(cid);
    var fetched := db.FromTelegramUser(target, None, None, true, false);
    if fetched.Err? {
      if fetched.error == DoesNotExist {
        return Pass;
      }
      return Fail(fetched.error);
    }
    if fetched.value.None? {
      // not reached: without dont_raise the fetch raises instead
      return Pass;
    }
    var auth := fetched.value.value;
    var admin := db.AdminFromTelegramUser(target, None, true, true);
    if admin.Err? {
      return Fail(admin.error);
    }
    o := SettleOn(db, auth.row, Decided(auth.account, d), admin.value, d.AgreeAsAdmin?, cid);
  }

  /** The demote-or-promote-then-save tail of `btn_give_access`. */
  method SettleOn(db: UsersDb, i: nat, rec: Account, admin: Option<nat>, promote: bool, cid: int) returns (o: Outcome)
    requires db.Valid() && i < |db.users|
    requires admin.Some? ==> admin.value < |db.admins|
    modifies db
    ensures (o, db.Tables()) == Settle(old(db.Tables()), i, rec, admin, promote, cid)
    ensures db.Valid()
  {
    if promote {
      AdminCreateKeepsAccounts(db.Tables(), IdKey(cid), Some(cid));
      var created := db.AdminCreateFromTelegramUser(IdKey(cid), Some(cid));
      if created.Err? && created.error != UserAlready {
        return Fail(created.error);
      }
    } else if admin.Some? {
      db.DeleteAdmin(admin.value);
    }
    o := db.SaveUser(i, rec);
  }
}
