/** The oldest users database, usersdbmanager.py: the same three tables
    without UNIQUE constraints on accounts, lookups by the keyword
    arguments `telegram_id` and `username`, `is_authorized` as a filter on
    the blocked flag, `add_admin` refusing blocked accounts, and the root
    check and initialization run when the controller is constructed. */
module LegacyUsers {
  import opened Common
  import Roles
  import Bootstrap

  /** The keyword arguments `**attributes`; None is an argument left out. */
  datatype Attributes = Attributes(telegramId: Option<int>, username: Option<string>)

  /** An AuthorizedUser row of this revision (`last_connection` is not modelled). */
  datatype LegacyAccount = LegacyAccount(
    telegramId: int,
    firstName: string,
    lastName: string,
    username: string,
    blocked: bool)

  datatype LegacyTables = LegacyTables(users: seq<LegacyAccount>, admins: seq<Roles.AdminRow>, roots: seq<Roles.RootRow>)

  /** The only declared constraints: Admin's and Root's primary keys, and
      rows referring to accounts that exist (no account is ever deleted). */
  predicate WellFormed(t: LegacyTables) {
    && (forall a :: 0 <= a < |t.admins| ==> t.admins[a].user < |t.users|)
    && (forall a, b :: 0 <= a < |t.admins| && 0 <= b < |t.admins| && a != b ==> t.admins[a].user != t.admins[b].user)
    && (forall r, s :: 0 <= r < |t.roots| && 0 <= s < |t.roots| && r != s ==> t.roots[r].admin != t.roots[s].admin)
    && (forall r :: 0 <= r < |t.roots| ==> t.roots[r].admin < |t.users|)
  }

  /** `__predicate_telegram_id_and_username` refuses a call without either argument. */
  predicate HasAttribute(attrs: Attributes) {
    attrs.telegramId.Some? || attrs.username.Some?
  }

  /** The predicate itself. An argument left out is None, which peewee
      compares as IS NULL, and no stored column is NULL: a comparison with
      an omitted argument is false. */
  predicate Matches(u: LegacyAccount, attrs: Attributes) {
    || attrs.telegramId == Some(u.telegramId)
    || (attrs.username == Some(u.username) && u.telegramId == DefaultTelegramId)
  }

  predicate AdminMatches(t: LegacyTables, a: nat, attrs: Attributes) {
    a < |t.admins| && t.admins[a].user < |t.users| && Matches(t.users[t.admins[a].user], attrs)
  }

  predicate RootMatches(t: LegacyTables, k: nat, attrs: Attributes) {
    k < |t.roots| && exists a :: 0 <= a < |t.admins| && t.admins[a].user == t.roots[k].admin && AdminMatches(t, a, attrs)
  }

  /** `user_exists`: some row matches, blocked or not. */
  function UserExists(users: seq<LegacyAccount>, attrs: Attributes): (r: Result<bool>)
    ensures r.Err? <==> !HasAttribute(attrs)
    ensures r.Ok? ==> (r.value <==> exists j :: 0 <= j < |users| && Matches(users[j], attrs))
  {
    if !HasAttribute(attrs) then Err(InvalidKey)
    else Ok(exists j :: 0 <= j < |users| && Matches(users[j], attrs))
  }

  /** `is_authorized`: some matching row is not blocked (not only the first). */
  function IsAuthorized(users: seq<LegacyAccount>, attrs: Attributes): (r: Result<bool>)
    ensures r.Err? <==> !HasAttribute(attrs)
    ensures r.Ok? ==> (r.value <==> exists j :: 0 <= j < |users| && Matches(users[j], attrs) && !users[j].blocked)
    ensures r == Ok(true) ==> UserExists(users, attrs) == Ok(true)
  {
    if !HasAttribute(attrs) then Err(InvalidKey)
    else Ok(exists j :: 0 <= j < |users| && Matches(users[j], attrs) && !users[j].blocked)
  }

  /** `is_admin`. */
  function IsAdmin(t: LegacyTables, attrs: Attributes): (r: Result<bool>)
    ensures r.Err? <==> !HasAttribute(attrs)
    ensures r.Ok? ==> (r.value <==> exists a :: 0 <= a < |t.admins| && AdminMatches(t, a, attrs))
    ensures r == Ok(true) ==> UserExists(t.users, attrs) == Ok(true)
  {
    if !HasAttribute(attrs) then Err(InvalidKey)
    else Ok(exists a :: 0 <= a < |t.admins| && AdminMatches(t, a, attrs))
  }

  /** `is_root`. */
  function IsRoot(t: LegacyTables, attrs: Attributes): (r: Result<bool>)
    ensures r.Err? <==> !HasAttribute(attrs)
    ensures r.Ok? ==> (r.value <==> exists k :: 0 <= k < |t.roots| && RootMatches(t, k, attrs))
    ensures r == Ok(true) ==> IsAdmin(t, attrs) == Ok(true)
  {
    if !HasAttribute(attrs) then Err(InvalidKey)
    else Ok(exists k :: 0 <= k < |t.roots| && RootMatches(t, k, attrs))
  }

  /** The role chain for one set of arguments: root implies admin implies the account exists. */
  lemma RoleContainment(t: LegacyTables, attrs: Attributes)
    ensures IsRoot(t, attrs) == Ok(true) ==> IsAdmin(t, attrs) == Ok(true)
    ensures IsAdmin(t, attrs) == Ok(true) ==> UserExists(t.users, attrs) == Ok(true)
    ensures IsAuthorized(t.users, attrs) == Ok(true) ==> UserExists(t.users, attrs) == Ok(true)
  {
  }

  /** `get_root_chat_id` of this revision, the same join as the later one. */
  function RootChatIds(t: LegacyTables): (r: seq<int>)
    ensures forall c :: c in r <==>
      exists k, a :: 0 <= k < |t.roots| && 0 <= a < |t.admins| && t.admins[a].user == t.roots[k].admin && t.admins[a].chatId == c
  {
    Roles.RootChatIds(t.admins, t.roots)
  }

  /** `__authorized_users_select_query(...).get()` behind `search_authorized_user`:
      the first matching row, skipping blocked rows unless `get_all`. */
  function SearchAuthorizedUser(users: seq<LegacyAccount>, attrs: Attributes, getAll: bool): (r: Result<Option<nat>>)
    ensures r.Err? <==> !HasAttribute(attrs)
    ensures r.Ok? && r.value.Some? ==>
              var j := r.value.value;
              && j < |users| && Matches(users[j], attrs) && (getAll || !users[j].blocked)
              && forall i :: 0 <= i < j ==> !(Matches(users[i], attrs) && (getAll || !users[i].blocked))
    ensures r.Ok? ==> (r.value.None? <==> forall i :: 0 <= i < |users| ==> !(Matches(users[i], attrs) && (getAll || !users[i].blocked)))
  {
    if !HasAttribute(attrs) then Err(InvalidKey) else Ok(FirstSelected(users, attrs, getAll, 0))
  }

  function FirstSelected(users: seq<LegacyAccount>, attrs: Attributes, getAll: bool, from: nat): (r: Option<nat>)
    requires from <= |users|
    ensures r.Some? ==> from <= r.value < |users| && Matches(users[r.value], attrs) && (getAll || !users[r.value].blocked)
    ensures r.Some? ==> forall i :: from <= i < r.value ==> !(Matches(users[i], attrs) && (getAll || !users[i].blocked))
    ensures r.None? <==> forall i :: from <= i < |users| ==> !(Matches(users[i], attrs) && (getAll || !users[i].blocked))
    decreases |users| - from
  {
    if from == |users| then None
    else if Matches(users[from], attrs) && (getAll || !users[from].blocked) then Some(from)
    else FirstSelected(users, attrs, getAll, from + 1)
  }

  /** `search_admin`: the first Admin row whose account matches. */
  function SearchAdmin(t: LegacyTables, attrs: Attributes): (r: Result<Option<nat>>)
    ensures r.Err? <==> !HasAttribute(attrs)
    ensures r.Ok? && r.value.Some? ==>
              r.value.value < |t.admins| && AdminMatches(t, r.value.value, attrs) &&
              forall a :: 0 <= a < r.value.value ==> !AdminMatches(t, a, attrs)
    ensures r.Ok? ==> (r.value.Some? <==> IsAdmin(t, attrs) == Ok(true))
  {
    if !HasAttribute(attrs) then Err(InvalidKey) else Ok(FirstAdminFrom(t, attrs, 0))
  }

  function FirstAdminFrom(t: LegacyTables, attrs: Attributes, from: nat): (r: Option<nat>)
    requires from <= |t.admins|
    ensures r.Some? ==> from <= r.value < |t.admins| && AdminMatches(t, r.value, attrs)
    ensures r.Some? ==> forall a :: from <= a < r.value ==> !AdminMatches(t, a, attrs)
    ensures r.None? <==> forall a :: from <= a < |t.admins| ==> !AdminMatches(t, a, attrs)
    decreases |t.admins| - from
  {
    if from == |t.admins| then None
    else if AdminMatches(t, from, attrs) then Some(from)
    else FirstAdminFrom(t, attrs, from + 1)
  }

  /** `AuthorizedUser.create(**attributes)`: the given arguments over the column defaults. */
  function NewAccount(attrs: Attributes): (u: LegacyAccount)
    ensures HasAttribute(attrs) ==> Matches(u, attrs)
    ensures !u.blocked
  {
    LegacyAccount(
      if attrs.telegramId.Some? then attrs.telegramId.value else DefaultTelegramId,
      "", "",
      if attrs.username.Some? then attrs.username.value else "",
      false)
  }

  /** `add_authorized_user`: refused when a row matches; otherwise exactly one row is added. */
  function AddUserTo(users: seq<LegacyAccount>, attrs: Attributes): (res: (Outcome, seq<LegacyAccount>))
    ensures res.0 == Fail(InvalidKey) <==> !HasAttribute(attrs)
    ensures res.0 == Fail(UserAlready) <==> UserExists(users, attrs) == Ok(true)
    ensures res.0.Fail? ==> res.1 == users
    ensures res.0 == Pass ==> res.1 == users + [NewAccount(attrs)]
    ensures res.0 == Pass ==> UserExists(res.1, attrs) == Ok(true) && IsAuthorized(res.1, attrs) == Ok(true)
  {
    match UserExists(users, attrs)
    case Err(e) => (Fail(e), users)
    case Ok(true) => (Fail(UserAlready), users)
    case Ok(false) =>
      var after := users + [NewAccount(attrs)];
      assert Matches(after[|users|], attrs);
      (Pass, after)
  }

  /** `add_admin`: refused for an admin, and for a blocked first matching
      account; a key with no account gets one created first. */
  function AddAdminTo(t: LegacyTables, attrs: Attributes): (res: (Outcome, LegacyTables))
    requires WellFormed(t)
    ensures res.0 == Fail(InvalidKey) <==> !HasAttribute(attrs)
    ensures res.0 == Fail(UserAlready) <==> IsAdmin(t, attrs) == Ok(true)
    ensures res.0 == Fail(UserBlocked) <==>
              IsAdmin(t, attrs) == Ok(false) && SearchAuthorizedUser(t.users, attrs, true).value.Some? &&
              t.users[SearchAuthorizedUser(t.users, attrs, true).value.value].blocked
    ensures res.0.Fail? ==> res.1 == t
    ensures res.0 == Pass ==> res.1.roots == t.roots && |res.1.admins| == |t.admins| + 1
    ensures res.0 == Pass ==> SearchAuthorizedUser(t.users, attrs, true).value.Some? ==>
              var j := SearchAuthorizedUser(t.users, attrs, true).value.value;
              res.1.users == t.users && res.1.admins == t.admins + [Roles.AdminRow(j, 0)]
    ensures res.0 == Pass ==> SearchAuthorizedUser(t.users, attrs, true).value.None? ==>
              res.1.users == t.users + [NewAccount(attrs)] && res.1.admins == t.admins + [Roles.AdminRow(|t.users|, 0)]
  {
    match IsAdmin(t, attrs)
    case Err(e) => (Fail(e), t)
    case Ok(true) => (Fail(UserAlready), t)
    case Ok(false) =>
      match SearchAuthorizedUser(t.users, attrs, true).value
      case None =>
        (Pass, LegacyTables(t.users + [NewAccount(attrs)], t.admins + [Roles.AdminRow(|t.users|, 0)], t.roots))
      case Some(j) =>
        if t.users[j].blocked then (Fail(UserBlocked), t)
        else (Pass, t.(admins := t.admins + [Roles.AdminRow(j, 0)]))
  }

  /** A successful `add_admin` keeps the constraints, makes the arguments an
      admin's, and never promotes a blocked account. */
  lemma AddAdminOutcome(t: LegacyTables, attrs: Attributes)
    requires WellFormed(t)
    ensures WellFormed(AddAdminTo(t, attrs).1)
    ensures AddAdminTo(t, attrs).0 == Pass ==>
              var t1 := AddAdminTo(t, attrs).1;
              && IsAdmin(t1, attrs) == Ok(true)
              && !t1.users[t1.admins[|t.admins|].user].blocked
  {
    var res := AddAdminTo(t, attrs);
    if res.0 == Pass {
      var t1 := res.1;
      var ad := t1.admins[|t.admins|];
      assert AdminMatches(t1, |t.admins|, attrs);
      // the new account is not already an admin: its row matches the arguments
      forall a | 0 <= a < |t.admins| ensures t.admins[a].user != ad.user {
        assert !AdminMatches(t, a, attrs);
      }
    }
  }

  /** The root predicate `AuthorizedUser.username == root_username`. */
  predicate Named(users: seq<LegacyAccount>, name: string, k: nat) {
    k < |users| && users[k].username == name
  }

  predicate AdminNamed(t: LegacyTables, name: string, a: nat) {
    a < |t.admins| && Named(t.users, name, t.admins[a].user)
  }

  predicate RootNamed(t: LegacyTables, name: string, k: nat, a: nat) {
    k < |t.roots| && AdminNamed(t, name, a) && t.admins[a].user == t.roots[k].admin
  }

  function JoinsOf(t: LegacyTables, name: string, k: nat): nat {
    Bootstrap.CountWhere(|t.admins|, (a: nat) => RootNamed(t, name, k, a))
  }

  /** The constructor's `root_count`. */
  function RootCount(t: LegacyTables, name: string): nat {
    Bootstrap.CountWhere(|t.users|, (k: nat) => Named(t.users, name, k))
    + Bootstrap.CountWhere(|t.admins|, (a: nat) => AdminNamed(t, name, a))
    + Bootstrap.SumTo(|t.roots|, (k: nat) => JoinsOf(t, name, k))
  }

  /** The constructor's `.get()`: a Root row joined to an account with the root username. */
  predicate RootInitialized(t: LegacyTables, name: string) {
    exists k, a :: 0 <= k < |t.roots| && 0 <= a < |t.admins| && RootNamed(t, name, k, a)
  }

  /** The account the constructor creates for the root. */
  function RootAccount(name: string): LegacyAccount {
    LegacyAccount(DefaultTelegramId, "Root", "Root", name, false)
  }

  /** The three rows the constructor inserts for a missing root. */
  function WithRoot(t: LegacyTables, name: string): (t1: LegacyTables)
    ensures |t1.users| == |t.users| + 1 && |t1.admins| == |t.admins| + 1 && |t1.roots| == |t.roots| + 1
    ensures RootNamed(t1, name, |t.roots|, |t.admins|)
  {
    var i := |t.users|;
    LegacyTables(t.users + [RootAccount(name)], t.admins + [Roles.AdminRow(i, 0)], t.roots + [Roles.RootRow(i)])
  }

  /** `UsersDBController.__init__` on the stored tables: a count other than
      0 and 3 drops and recreates the tables (the operator typed 'yes') or
      exits; then the root rows are created unless a Root row joins an
      account with the root username. There is no second check. */
  function Startup(t: LegacyTables, name: string, recreate: bool): (res: (Outcome, LegacyTables))
    requires WellFormed(t)
    ensures res.0 == Pass || res == (Fail(OperatorAbort), t)
    ensures res.0 == Pass ==> RootInitialized(res.1, name)
    ensures WellFormed(res.1)
  {
    var count := RootCount(t, name);
    if count != 3 && count != 0 && !recreate then (Fail(OperatorAbort), t)
    else
      var t0 := if count != 3 && count != 0 then LegacyTables([], [], []) else t;
      if RootInitialized(t0, name) then (Pass, t0) else (Pass, WithRoot(t0, name))
  }

  /** Three accounts that share the root username and nothing else pass the
      count check, since the count is 3; the constructor then finds no Root
      row and adds a fourth account, an Admin and a Root, leaving a count
      of 6 that the next start-up reports as corrupted. */
  lemma CountOfThreeWithoutRoot()
    ensures var t := LegacyTables([LegacyAccount(1, "", "", "root", false), LegacyAccount(2, "", "", "root", false),
                                   LegacyAccount(3, "", "", "root", false)], [], []);
            && RootCount(t, "root") == 3
            && !RootInitialized(t, "root")
            && Startup(t, "root", false) == (Pass, WithRoot(t, "root"))
            && RootCount(WithRoot(t, "root"), "root") == 6
  {
    var t := LegacyTables([LegacyAccount(1, "", "", "root", false), LegacyAccount(2, "", "", "root", false),
                           LegacyAccount(3, "", "", "root", false)], [], []);
    var p := (k: nat) => Named(t.users, "root", k);
    assert Bootstrap.CountWhere(1, p) == 1;
    assert Bootstrap.CountWhere(2, p) == 2;
    assert Bootstrap.CountWhere(3, p) == 3;
    assert RootCount(t, "root") == 3;
    var t1 := WithRoot(t, "root");
    var p1 := (k: nat) => Named(t1.users, "root", k);
    assert Bootstrap.CountWhere(1, p1) == 1;
    assert Bootstrap.CountWhere(2, p1) == 2;
    assert Bootstrap.CountWhere(3, p1) == 3;
    assert Bootstrap.CountWhere(4, p1) == 4;
    var q1 := (a: nat) => AdminNamed(t1, "root", a);
    assert Bootstrap.CountWhere(1, q1) == 1;
    assert JoinsOf(t1, "root", 0) == 1 by {
      var r := (a: nat) => RootNamed(t1, "root", 0, a);
      assert Bootstrap.CountWhere(1, r) == 1;
    }
    var f1 := (k: nat) => JoinsOf(t1, "root", k);
    assert Bootstrap.SumTo(1, f1) == 1;
  }

  /** No account named like the root: nothing is counted. */
  lemma CountWhenUnnamed(t: LegacyTables, name: string)
    requires forall j :: 0 <= j < |t.users| ==> t.users[j].username != name
    ensures RootCount(t, name) == 0 && !RootInitialized(t, name)
  {
    var p := (k: nat) => Named(t.users, name, k);
    assert Bootstrap.CountWhere(|t.users|, p) == 0;
    var q := (a: nat) => AdminNamed(t, name, a);
    assert Bootstrap.CountWhere(|t.admins|, q) == 0;
    var f := (k: nat) => JoinsOf(t, name, k);
    forall k | 0 <= k < |t.roots| ensures f(k) == 0 {
      var r := (a: nat) => RootNamed(t, name, k, a);
      assert forall a :: 0 <= a < |t.admins| ==> !r(a);
    }
  }

  lemma UsersNamedAfterRoot(t: LegacyTables, name: string)
    requires forall j :: 0 <= j < |t.users| ==> t.users[j].username != name
    ensures Bootstrap.CountWhere(|WithRoot(t, name).users|, (k: nat) => Named(WithRoot(t, name).users, name, k)) == 1
  {
    var t1 := WithRoot(t, name);
    var p1 := (k: nat) => Named(t1.users, name, k);
    assert forall k :: 0 <= k < |t1.users| && p1(k) ==> k == |t.users|;
    Bootstrap.CountWhereAtMostOne(|t1.users|, p1);
    assert p1(|t.users|);
  }

  lemma AdminsNamedAfterRoot(t: LegacyTables, name: string)
    requires WellFormed(t)
    requires forall j :: 0 <= j < |t.users| ==> t.users[j].username != name
    ensures Bootstrap.CountWhere(|WithRoot(t, name).admins|, (a: nat) => AdminNamed(WithRoot(t, name), name, a)) == 1
  {
    var t1 := WithRoot(t, name);
    var q1 := (a: nat) => AdminNamed(t1, name, a);
    assert forall a :: 0 <= a < |t1.admins| && q1(a) ==> a == |t.admins|;
    Bootstrap.CountWhereAtMostOne(|t1.admins|, q1);
    assert q1(|t.admins|);
  }

  lemma RootsNamedAfterRoot(t: LegacyTables, name: string)
    requires WellFormed(t)
    requires forall j :: 0 <= j < |t.users| ==> t.users[j].username != name
    ensures Bootstrap.SumTo(|WithRoot(t, name).roots|, (k: nat) => JoinsOf(WithRoot(t, name), name, k)) == 1
  {
    var t1 := WithRoot(t, name);
    var f1 := (k: nat) => JoinsOf(t1, name, k);
    forall k | 0 <= k < |t1.roots|
      ensures f1(k) == (if k == |t.roots| then 1 else 0)
    {
      var r := (a: nat) => RootNamed(t1, name, k, a);
      assert forall a :: 0 <= a < |t1.admins| && r(a) ==> a == |t.admins| && k == |t.roots|;
      Bootstrap.CountWhereAtMostOne(|t1.admins|, r);
      if k == |t.roots| {
        assert r(|t.admins|);
      }
    }
    Bootstrap.SumToAtMostOne(|t1.roots|, f1);
    assert f1(|t.roots|) == 1;
  }

  /** A store with no account named like the root (an empty one, say) gets
      exactly the three root rows, and a count of 3. */
  lemma StartupOnFreshStore(t: LegacyTables, name: string, recreate: bool)
    requires WellFormed(t)
    requires forall j :: 0 <= j < |t.users| ==> t.users[j].username != name
    ensures Startup(t, name, recreate) == (Pass, WithRoot(t, name))
    ensures RootCount(WithRoot(t, name), name) == 3
  {
    CountWhenUnnamed(t, name);
    UsersNamedAfterRoot(t, name);
    AdminsNamedAfterRoot(t, name);
    RootsNamedAfterRoot(t, name);
  }

  /** The oldest users controller, its tables updated in place. */
  class LegacyDb {
    var users: seq<LegacyAccount>
    var admins: seq<Roles.AdminRow>
    var roots: seq<Roles.RootRow>

    function Tables(): LegacyTables
      reads this
    {
      LegacyTables(users, admins, roots)
    }

    predicate Valid()
      reads this
    {
      WellFormed(Tables())
    }

    /** The constructor: connect, create the tables, check and initialize the root. */
    constructor (stored: LegacyTables, name: string, recreate: bool)
      requires WellFormed(stored)
      ensures (if RootCount(stored, name) != 3 && RootCount(stored, name) != 0 && !recreate
               then Fail(OperatorAbort) else Pass, Tables()) == Startup(stored, name, recreate)
      ensures Valid()
    {
      users := stored.users;
      admins := stored.admins;
      roots := stored.roots;
      new;
      var rootCount := Bootstrap.CountWhere(|users|, (k: nat) => Named(stored.users, name, k));
      rootCount := rootCount + Bootstrap.CountWhere(|admins|, (a: nat) => AdminNamed(stored, name, a));
      rootCount := rootCount + Bootstrap.SumTo(|roots|, (k: nat) => JoinsOf(stored, name, k));
      if rootCount != 3 && rootCount != 0 {
        if !recreate {
          // exit(1)
          return;
        }
        users, admins, roots := [], [], [];
      }
      if !RootInitialized(Tables(), name) {
        var i := |users|;
        users := users + [RootAccount(name)];
        admins := admins + [Roles.AdminRow(i, 0)];
        roots := roots + [Roles.RootRow(i)];
      }
    }

    method AddAuthorizedUser(attrs: Attributes) returns (o: Outcome)
      requires Valid()
      modifies this
      ensures (o, users) == AddUserTo(old(users), attrs)
      ensures admins == old(admins) && roots == old(roots)
      ensures Valid()
    {
      var exists_ := UserExists(users, attrs);
      if exists_.Err? {
        return Fail(exists_.error);
      }
      if exists_.value {
        return Fail(UserAlready);
      }
      users := users + [NewAccount(attrs)];
      o := Pass;
    }

    method AddAdmin(attrs: Attributes) returns (o: Outcome)
      requires Valid()
      modifies this
      ensures (o, Tables()) == AddAdminTo(old(Tables()), attrs)
      ensures Valid()
    {
      AddAdminOutcome(Tables(), attrs);
      var isAdmin := IsAdmin(Tables(), attrs);
      if isAdmin.Err? {
        return Fail(isAdmin.error);
      }
      if isAdmin.value {
        return Fail(UserAlready);
      }
      var found := SearchAuthorizedUser(users, attrs, true);
      var j: nat;
      if found.value.None? {
        j := |users|;
        users := users + [NewAccount(attrs)];
      } else if users[found.value.value].blocked {
        return Fail(UserBlocked);
      } else {
        j := found.value.value;
      }
      admins := admins + [Roles.AdminRow(j, 0)];
      o := Pass;
    }
  }
}
