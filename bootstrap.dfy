/** Start-up checks of the users database, yt2audiobot/dbmanager.py (and
    the same `_check_root` / `_initialize_root` of
    yt2audiobot/usersdbmanager.py): the root username is counted in each of
    the three tables, 0 means missing, exactly 3 means sound, anything else
    means corrupted; the root rows are created only when missing. */
module Bootstrap {
  import opened Common
  import opened Accounts
  import opened Roles
  import opened UsersStore

  /** How many indices below `n` satisfy `p`: `count()` of a filtered query. */
  function CountWhere(n: nat, p: nat -> bool): (c: nat)
    ensures c <= n
    ensures c == 0 <==> forall i :: 0 <= i < n ==> !p(i)
  {
    if n == 0 then 0 else CountWhere(n - 1, p) + (if p(n - 1) then 1 else 0)
  }

  /** `f(0) + ... + f(n - 1)`. */
  function SumTo(n: nat, f: nat -> nat): (s: nat)
    ensures s == 0 <==> forall i :: 0 <= i < n ==> f(i) == 0
  {
    if n == 0 then 0 else SumTo(n - 1, f) + f(n - 1)
  }

  /** A filter that at most one index passes counts at most one. */
  lemma {:induction false} CountWhereAtMostOne(n: nat, p: nat -> bool)
    requires forall i, j :: 0 <= i < n && 0 <= j < n && p(i) && p(j) ==> i == j
    ensures CountWhere(n, p) <= 1
    ensures CountWhere(n, p) == 1 <==> exists i :: 0 <= i < n && p(i)
  {
    if n > 0 {
      CountWhereAtMostOne(n - 1, p);
    }
  }

  lemma {:induction false} SumToAtMostOne(n: nat, f: nat -> nat)
    requires forall i :: 0 <= i < n ==> f(i) <= 1
    requires forall i, j :: 0 <= i < n && 0 <= j < n && f(i) > 0 && f(j) > 0 ==> i == j
    ensures SumTo(n, f) <= 1
    ensures SumTo(n, f) == 1 <==> exists i :: 0 <= i < n && f(i) == 1
  {
    if n > 0 {
      SumToAtMostOne(n - 1, f);
    }
  }

  /** The root predicate `AuthorizedUser.username == root_username` on account `k`. */
  predicate Named(users: seq<Account>, name: string, k: nat) {
    k < |users| && users[k].username == Some(name)
  }

  /** Admin row `a` joined to an account with the root username. */
  predicate AdminNamed(t: UsersTables, name: string, a: nat) {
    a < |t.admins| && Named(t.users, name, t.admins[a].user)
  }

  /** Root row `k` joined to Admin row `a` joined to an account with the root username. */
  predicate RootNamed(t: UsersTables, name: string, k: nat, a: nat) {
    k < |t.roots| && AdminNamed(t, name, a) && t.admins[a].user == t.roots[k].admin
  }

  function CountUsersNamed(t: UsersTables, name: string): nat {
    CountWhere(|t.users|, (k: nat) => Named(t.users, name, k))
  }

  function CountAdminsNamed(t: UsersTables, name: string): nat {
    CountWhere(|t.admins|, (a: nat) => AdminNamed(t, name, a))
  }

  /** The rows the Root -> Admin -> AuthorizedUser join yields for Root row `k`. */
  function JoinsOf(t: UsersTables, name: string, k: nat): nat {
    CountWhere(|t.admins|, (a: nat) => RootNamed(t, name, k, a))
  }

  function CountRootsNamed(t: UsersTables, name: string): nat {
    SumTo(|t.roots|, (k: nat) => JoinsOf(t, name, k))
  }

  /** `root_count` once `_check_root` has added up its three queries. */
  function RootCount(t: UsersTables, name: string): nat {
    CountUsersNamed(t, name) + CountAdminsNamed(t, name) + CountRootsNamed(t, name)
  }

  /** The verdict of `_check_root` on a count. */
  function Classify(count: nat): (o: Outcome)
    ensures o == Pass <==> count == UserTableCount
    ensures o == Fail(RootDoesNotExist) <==> count == 0
    ensures o.Fail? ==> o.error == RootDoesNotExist || o.error == RootIsConfiguredIncorrectly
  {
    if count == 0 then Fail(RootDoesNotExist)
    else if count != UserTableCount then Fail(RootIsConfiguredIncorrectly)
    else Pass
  }

  /** What `_initialize_root` looks up with `.get()`: a Root row joined to an
      account with the root username. */
  predicate RootInitialized(t: UsersTables, name: string) {
    exists k, a :: 0 <= k < |t.roots| && 0 <= a < |t.admins| && RootNamed(t, name, k, a)
  }

  /** Usernames are unique, so at most one account has the root username. */
  lemma UsersNamedAtMostOne(t: UsersTables, name: string)
    requires Valid(t)
    ensures CountUsersNamed(t, name) <= 1
    ensures CountUsersNamed(t, name) == 1 <==> exists k :: 0 <= k < |t.users| && Named(t.users, name, k)
  {
    var p := (k: nat) => Named(t.users, name, k);
    assert forall i, j :: 0 <= i < |t.users| && 0 <= j < |t.users| && p(i) && p(j) ==> i == j;
    CountWhereAtMostOne(|t.users|, p);
    if CountUsersNamed(t, name) == 1 {
      var k :| 0 <= k < |t.users| && p(k);
      assert Named(t.users, name, k);
    }
    if exists k :: 0 <= k < |t.users| && Named(t.users, name, k) {
      var k :| 0 <= k < |t.users| && Named(t.users, name, k);
      assert p(k);
    }
  }

  /** An account has at most one Admin row, so at most one Admin row joins the root account. */
  lemma AdminsNamedAtMostOne(t: UsersTables, name: string)
    requires Valid(t)
    ensures CountAdminsNamed(t, name) <= 1
    ensures CountAdminsNamed(t, name) == 1 <==> exists a :: 0 <= a < |t.admins| && AdminNamed(t, name, a)
  {
    UsersNamedAtMostOne(t, name);
    var p := (a: nat) => AdminNamed(t, name, a);
    forall a, b | 0 <= a < |t.admins| && 0 <= b < |t.admins| && p(a) && p(b)
      ensures a == b
    {
      assert t.admins[a].user == t.admins[b].user;
    }
    CountWhereAtMostOne(|t.admins|, p);
    if CountAdminsNamed(t, name) == 1 {
      var a :| 0 <= a < |t.admins| && p(a);
      assert AdminNamed(t, name, a);
    }
    if exists a :: 0 <= a < |t.admins| && AdminNamed(t, name, a) {
      var a :| 0 <= a < |t.admins| && AdminNamed(t, name, a);
      assert p(a);
    }
  }

  /** A Root row joins at most one Admin row (Admin's primary key). */
  lemma JoinsOfAtMostOne(t: UsersTables, name: string, k: nat)
    requires Valid(t) && k < |t.roots|
    ensures JoinsOf(t, name, k) <= 1
    ensures JoinsOf(t, name, k) == 1 <==> exists a :: 0 <= a < |t.admins| && RootNamed(t, name, k, a)
  {
    var p := (a: nat) => RootNamed(t, name, k, a);
    forall a, b | 0 <= a < |t.admins| && 0 <= b < |t.admins| && p(a) && p(b)
      ensures a == b
    {
      assert t.admins[a].user == t.admins[b].user;
    }
    CountWhereAtMostOne(|t.admins|, p);
    if JoinsOf(t, name, k) == 1 {
      var a :| 0 <= a < |t.admins| && p(a);
      assert RootNamed(t, name, k, a);
    }
    if exists a :: 0 <= a < |t.admins| && RootNamed(t, name, k, a) {
      var a :| 0 <= a < |t.admins| && RootNamed(t, name, k, a);
      assert p(a);
    }
  }

  /** At most one Root row joins the root account, and one does exactly when it is initialized. */
  lemma RootsNamedAtMostOne(t: UsersTables, name: string)
    requires Valid(t)
    ensures CountRootsNamed(t, name) <= 1
    ensures CountRootsNamed(t, name) == 1 <==> RootInitialized(t, name)
  {
    var f := (k: nat) => JoinsOf(t, name, k);
    RootJoinsDisjoint(t, name);
    SumToAtMostOne(|t.roots|, f);
    if CountRootsNamed(t, name) == 1 {
      var k :| 0 <= k < |t.roots| && f(k) == 1;
      JoinsOfAtMostOne(t, name, k);
    }
    if RootInitialized(t, name) {
      var k, a :| 0 <= k < |t.roots| && 0 <= a < |t.admins| && RootNamed(t, name, k, a);
      JoinsOfAtMostOne(t, name, k);
      assert f(k) == 1;
    }
  }

  /** Each Root row yields at most one join, and only one Root row yields any. */
  lemma RootJoinsDisjoint(t: UsersTables, name: string)
    requires Valid(t)
    ensures forall k :: 0 <= k < |t.roots| ==> JoinsOf(t, name, k) <= 1
    ensures forall k, j :: 0 <= k < |t.roots| && 0 <= j < |t.roots| && JoinsOf(t, name, k) > 0 && JoinsOf(t, name, j) > 0 ==> k == j
  {
    forall k | 0 <= k < |t.roots|
      ensures JoinsOf(t, name, k) <= 1
    {
      JoinsOfAtMostOne(t, name, k);
    }
    forall k, j | 0 <= k < |t.roots| && 0 <= j < |t.roots| && JoinsOf(t, name, k) > 0 && JoinsOf(t, name, j) > 0
      ensures k == j
    {
      JoinsOfAtMostOne(t, name, k);
      JoinsOfAtMostOne(t, name, j);
      var a :| 0 <= a < |t.admins| && RootNamed(t, name, k, a);
      var b :| 0 <= b < |t.admins| && RootNamed(t, name, j, b);
      assert t.admins[a].user == t.admins[b].user;
    }
  }

  /** In a store that keeps the schema constraints the root username is
      counted at most once per table, so the count is at most 3; it is 3
      exactly when the root is present in all three tables, and 0 exactly
      when no account has the root username. */
  lemma RootCountClassification(t: UsersTables, name: string)
    requires Valid(t)
    ensures RootCount(t, name) <= UserTableCount
    ensures Classify(RootCount(t, name)) == Pass <==> RootInitialized(t, name)
    ensures Classify(RootCount(t, name)) == Fail(RootDoesNotExist) <==>
              forall k :: 0 <= k < |t.users| ==> !Named(t.users, name, k)
  {
    UsersNamedAtMostOne(t, name);
    AdminsNamedAtMostOne(t, name);
    RootsNamedAtMostOne(t, name);
    if RootInitialized(t, name) {
      var k, a :| 0 <= k < |t.roots| && 0 <= a < |t.admins| && RootNamed(t, name, k, a);
      assert Named(t.users, name, t.admins[a].user);
    }
    if CountAdminsNamed(t, name) == 1 {
      var a :| 0 <= a < |t.admins| && AdminNamed(t, name, a);
      assert Named(t.users, name, t.admins[a].user);
    }
    if CountRootsNamed(t, name) == 1 {
      var k, a :| 0 <= k < |t.roots| && 0 <= a < |t.admins| && RootNamed(t, name, k, a);
      assert Named(t.users, name, t.admins[a].user);
    }
  }

  /** The account `_initialize_root` creates: 'Root' 'Root', the root
      username, and the column defaults for the rest. */
  function RootAccount(name: string): Account {
    Account(Some(DefaultTelegramId), Some("Root"), Some("Root"), Some(name), false, 0)
  }

  /** `_initialize_root`: nothing to do when the root is there; otherwise
      insert the root account, an Admin row for it and a Root row for that,
      the first two refused by a violated constraint, and check the result. */
  function InitRoot(t: UsersTables, name: string): (res: (Outcome, UsersTables))
    requires Valid(t)
    // rows are only ever added, at most one to each table
    ensures t.users <= res.1.users && |res.1.users| <= |t.users| + 1
    ensures t.admins <= res.1.admins && |res.1.admins| <= |t.admins| + 1
    ensures t.roots <= res.1.roots && |res.1.roots| <= |t.roots| + 1
    ensures res.0 != Fail(OperatorAbort)
  {
    if RootInitialized(t, name) then (Pass, t)
    else if !CanInsert(t.users, RootAccount(name)) then (Fail(IntegrityError), t)
    else
      var i := |t.users|;
      var t1 := t.(users := t.users + [RootAccount(name)]);
      if !CanInsertAdmin(t.admins, AdminRow(i, DefaultTelegramId)) then (Fail(IntegrityError), t1)
      else
        // the Root insert is never refused: every Root row names an existing account
        var t3 := t1.(admins := t.admins + [AdminRow(i, DefaultTelegramId)], roots := t.roots + [RootRow(i)]);
        (Classify(RootCount(t3, name)), t3)
  }

  /** `_initialize_root` keeps the constraints; it either leaves a root in
      all three tables (and then a second call changes nothing) or stops
      at a refused insert; the store it started from is kept when the root
      was already there. */
  lemma InitRootOutcome(t: UsersTables, name: string)
    requires Valid(t)
    ensures var res := InitRoot(t, name);
            && Valid(res.1)
            && (res.0 == Pass || res.0 == Fail(IntegrityError))
            && (RootInitialized(t, name) ==> res == (Pass, t))
            && (res.0 == Pass ==> RootInitialized(res.1, name) && RootCount(res.1, name) == UserTableCount)
            && (res.0 == Pass ==> InitRoot(res.1, name) == (Pass, res.1))
  {
    if !RootInitialized(t, name) && CanInsert(t.users, RootAccount(name)) {
      var i := |t.users|;
      var t1 := t.(users := t.users + [RootAccount(name)]);
      AppendRootAccountKeepsValid(t, name);
      if CanInsertAdmin(t.admins, AdminRow(i, DefaultTelegramId)) {
        var t2 := t1.(admins := t.admins + [AdminRow(i, DefaultTelegramId)]);
        AppendAdminKeepsValid(t1, AdminRow(i, DefaultTelegramId));
        AppendRootRowKeepsValid(t2, i);
        var t3 := t2.(roots := t.roots + [RootRow(i)]);
        assert RootNamed(t3, name, |t.roots|, |t.admins|);
        RootCountClassification(t3, name);
      }
    }
    if RootInitialized(t, name) {
      RootCountClassification(t, name);
    }
  }

  /** Inserting the root account, which the constraints admit, keeps them. */
  lemma AppendRootAccountKeepsValid(t: UsersTables, name: string)
    requires Valid(t) && CanInsert(t.users, RootAccount(name))
    ensures Valid(t.(users := t.users + [RootAccount(name)]))
  {
    var users := t.users + [RootAccount(name)];
    forall i, j | 0 <= i < |users| && 0 <= j < |users| && i != j
      ensures Compatible(users[i], users[j])
    {
      if i == |t.users| {
        assert users[j] == t.users[j];
      } else if j == |t.users| {
        assert users[i] == t.users[i];
        CompatibleSymmetric(users[i], users[j]);
      } else {
        assert users[i] == t.users[i] && users[j] == t.users[j];
      }
    }
    assert forall i :: 0 <= i < |users| ==> NotNull(users[i]);
  }

  /** A Root row for an account no Root row names yet keeps the constraints. */
  lemma AppendRootRowKeepsValid(t: UsersTables, i: nat)
    requires Valid(t) && i < |t.users|
    requires forall r :: 0 <= r < |t.roots| ==> t.roots[r].admin != i
    ensures Valid(t.(roots := t.roots + [RootRow(i)]))
  {
    var roots := t.roots + [RootRow(i)];
    forall r, q | 0 <= r < |roots| && 0 <= q < |roots| && r != q
      ensures roots[r].admin != roots[q].admin
    {
      if r == |t.roots| {
        assert roots[q] == t.roots[q];
      } else if q == |t.roots| {
        assert roots[r] == t.roots[r];
      } else {
        assert roots[r] == t.roots[r] && roots[q] == t.roots[q];
      }
    }
  }

  /** On a store holding no account with the root username or the default
      Telegram id and no Admin with the default chat_id (an empty one, say),
      `_initialize_root` inserts exactly the three root rows and succeeds. */
  lemma InitRootOnFreshStore(t: UsersTables, name: string)
    requires Valid(t)
    requires forall j :: 0 <= j < |t.users| ==>
               t.users[j].telegramId != Some(DefaultTelegramId) && t.users[j].username != Some(name)
    requires forall a :: 0 <= a < |t.admins| ==> t.admins[a].chatId != DefaultTelegramId
    ensures InitRoot(t, name) ==
              (Pass, UsersTables(t.users + [RootAccount(name)],
                                 t.admins + [AdminRow(|t.users|, DefaultTelegramId)],
                                 t.roots + [RootRow(|t.users|)]))
  {
    assert !RootInitialized(t, name);
    InitRootOutcome(t, name);
  }

  lemma InitRootOnEmptyStore(name: string)
    ensures InitRoot(UsersTables([], [], []), name) ==
              (Pass, UsersTables([RootAccount(name)], [AdminRow(0, DefaultTelegramId)], [RootRow(0)]))
  {
    InitRootOnFreshStore(UsersTables([], [], []), name);
    assert [] + [RootAccount(name)] == [RootAccount(name)];
    assert [] + [AdminRow(0, DefaultTelegramId)] == [AdminRow(0, DefaultTelegramId)];
    assert [] + [RootRow(0)] == [RootRow(0)];
  }

  /** `initialize_db` after connecting: a failed check either drops and
      recreates the tables (the operator typed 'yes') or exits; then the
      root is initialized. */
  function InitDb(t: UsersTables, name: string, recreate: bool): (res: (Outcome, UsersTables))
    requires Valid(t)
    // the operator is asked only when the count check fails, and a refusal leaves the store alone
    ensures res.0 == Fail(OperatorAbort) <==> Classify(RootCount(t, name)) != Pass && !recreate
    ensures res.0 == Fail(OperatorAbort) ==> res.1 == t
    ensures Classify(RootCount(t, name)) != Pass && recreate ==> |res.1.users| <= 1
  {
    if Classify(RootCount(t, name)) == Pass then InitRoot(t, name)
    else if recreate then InitRoot(UsersTables([], [], []), name)
    else (Fail(OperatorAbort), t)
  }

  /** A sound store is left as it is; a corrupted or empty one is either
      rebuilt with exactly the root rows or left alone when the operator
      refuses, so `initialize_db` never ends with a corrupted store. */
  lemma InitDbOutcome(t: UsersTables, name: string, recreate: bool)
    requires Valid(t)
    ensures Classify(RootCount(t, name)) == Pass ==> InitDb(t, name, recreate) == (Pass, t)
    ensures Classify(RootCount(t, name)) != Pass && recreate ==>
              InitDb(t, name, recreate) ==
                (Pass, UsersTables([RootAccount(name)], [AdminRow(0, DefaultTelegramId)], [RootRow(0)]))
    ensures Classify(RootCount(t, name)) != Pass && !recreate ==> InitDb(t, name, recreate) == (Fail(OperatorAbort), t)
    ensures InitDb(t, name, recreate).0 == Pass ==> RootCount(InitDb(t, name, recreate).1, name) == UserTableCount
  {
    RootCountClassification(t, name);
    InitRootOutcome(t, name);
    if Classify(RootCount(t, name)) != Pass && recreate {
      InitRootOnEmptyStore(name);
      InitRootOutcome(UsersTables([], [], []), name);
    }
  }

  /** `_check_root`: add up the three counts, then classify. */
  method CheckRoot(db: UsersDb, name: string) returns (o: Outcome)
    ensures o == Classify(RootCount(db.Tables(), name))
  {
    var rootCount := CountUsersNamed(db.Tables(), name);
    rootCount := rootCount + CountAdminsNamed(db.Tables(), name);
    rootCount := rootCount + CountRootsNamed(db.Tables(), name);
    if rootCount == 0 {
      return Fail(RootDoesNotExist);
    } else if rootCount != UserTableCount {
      return Fail(RootIsConfiguredIncorrectly);
    }
    return Pass;
  }

  /** `connect_to_db` after connecting: the check's exception propagates
      unless the root is present in all three tables. */
  method ConnectToDb(db: UsersDb, name: string) returns (o: Outcome)
    requires db.Valid()
    ensures o == Pass <==> RootInitialized(db.Tables(), name)
    ensures o.Fail? ==> o.error == RootDoesNotExist || o.error == RootIsConfiguredIncorrectly
  {
    RootCountClassification(db.Tables(), name);
    o := CheckRoot(db, name);
  }

  method InitializeRoot(db: UsersDb, name: string) returns (o: Outcome)
    requires db.Valid()
    modifies db
    ensures (o, db.Tables()) == InitRoot(old(db.Tables()), name)
    ensures db.Valid()
  {
    InitRootOutcome(db.Tables(), name);
    if RootInitialized(db.Tables(), name) {
      return Pass;
    }
    var u := db.InsertUser(RootAccount(name));
    if u.Err? {
      return Fail(u.error);
    }
    var a := db.InsertAdmin(AdminRow(u.value, DefaultTelegramId));
    if a.Err? {
      return Fail(a.error);
    }
    // refused only for an Admin that already has a Root row, and the new one has none
    var r := db.InsertRoot(RootRow(u.value));
    o := CheckRoot(db, name);
  }

  method InitializeDb(db: UsersDb, name: string, recreate: bool) returns (o: Outcome)
    requires db.Valid()
    modifies db
    ensures (o, db.Tables()) == InitDb(old(db.Tables()), name, recreate)
    ensures db.Valid()
  {
    o := CheckRoot(db, name);
    if o.Fail? {
      if !recreate {
        return Fail(OperatorAbort);
      }
      db.Clear();
    }
    o := InitializeRoot(db, name);
  }
}
