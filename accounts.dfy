/** The AuthorizedUser table of yt2audiobot/models/authorizeduser.py: the
    lookup key, the stored account, the id-or-unlearned-handle matching
    rule, field merging on contact, the record a create inserts, and the
    authorized/banned predicates. */
module Accounts {
  import opened Common

  /** `TelegramUser(id, first_name, last_name, username)`, the lookup key. */
  datatype TelegramUser = TelegramUser(
    id: Option<int>,
    firstName: Option<string>,
    lastName: Option<string>,
    username: Option<string>)

  /** One AuthorizedUser row (`last_connection` is not modelled). The
      columns are options because a create hands the key's values to the
      database as they are; the NOT NULL constraint then decides. */
  datatype Account = Account(
    telegramId: Option<int>,
    firstName: Option<string>,
    lastName: Option<string>,
    username: Option<string>,
    blocked: bool,
    accessRequestedCount: int)

  /** A lookup is refused when the key has neither an id nor a username. */
  predicate HasIdentity(key: TelegramUser) {
    key.id.Some? || key.username.Some?
  }

  /** The WHERE clause `telegram_id == key.id | (username == key.username &
      telegram_id == DEFAULT_TELEGRAM_ID)`. Peewee turns `== None` into
      `IS NULL`, so each comparison holds exactly when the two options are
      equal: a stored NULL equals a `None` key field and nothing else. */
  predicate Matches(u: Account, key: TelegramUser)
    // a key with neither an id nor a username compiles to `IS NULL` on both sides and matches no stored row
    ensures NotNull(u) && !HasIdentity(key) ==> !Matches(u, key)
  {
    u.telegramId == key.id || (u.username == key.username && u.telegramId == Some(DefaultTelegramId))
  }

  /** `select().where(predicate).limit(1).first()`: the first matching row. */
  function FirstMatch(users: seq<Account>, key: TelegramUser): (r: Option<nat>)
    ensures r.Some? ==> r.value < |users| && Matches(users[r.value], key)
    ensures r.Some? ==> forall j :: 0 <= j < r.value ==> !Matches(users[j], key)
    ensures r.None? <==> forall j :: 0 <= j < |users| ==> !Matches(users[j], key)
  {
    if |users| == 0 then None
    else if Matches(users[0], key) then Some(0)
    else match FirstMatch(users[1..], key)
      case None => None
      case Some(k) => Some(k + 1)
  }

  /** `_select_from_telegram_user`: refuses an empty key, else the first match. */
  function SelectUser(users: seq<Account>, key: TelegramUser): (r: Result<Option<nat>>)
    ensures r.Err? <==> !HasIdentity(key)
    ensures r.Err? ==> r.error == InvalidKey
    ensures r.Ok? && r.value.Some? ==> r.value.value < |users| && Matches(users[r.value.value], key)
    ensures r.Ok? ==> (r.value.None? <==> forall j :: 0 <= j < |users| ==> !Matches(users[j], key))
  {
    if !HasIdentity(key) then Err(InvalidKey) else Ok(FirstMatch(users, key))
  }

  /** Adding a row that the key does not match leaves the first match unchanged;
      adding one that it matches, after rows it does not, makes that row the first. */
  lemma {:induction false} FirstMatchAppend(users: seq<Account>, a: Account, key: TelegramUser)
    ensures FirstMatch(users, key).Some? ==> FirstMatch(users + [a], key) == FirstMatch(users, key)
    ensures FirstMatch(users, key).None? && Matches(a, key) ==> FirstMatch(users + [a], key) == Some(|users|)
    ensures FirstMatch(users, key).None? && !Matches(a, key) ==> FirstMatch(users + [a], key).None?
  {
    if |users| > 0 {
      assert (users + [a])[1..] == users[1..] + [a];
      FirstMatchAppend(users[1..], a, key);
    }
  }

  /** Replacing a row by one that matches the same keys cannot change which row is first. */
  lemma {:induction false} FirstMatchUpdate(users: seq<Account>, i: nat, a: Account, key: TelegramUser)
    requires i < |users|
    requires Matches(a, key) == Matches(users[i], key)
    ensures FirstMatch(users[i := a], key) == FirstMatch(users, key)
  {
    if i > 0 {
      assert users[i := a][1..] == users[1..][i - 1 := a];
      FirstMatchUpdate(users[1..], i - 1, a, key);
    }
  }

  /** The value a given keyword argument sets, or the current one when it is None. */
  function Override<T>(given: Option<T>, current: T): (r: T)
    ensures given.Some? ==> r == given.value
    ensures given.None? ==> r == current
  {
    if given.Some? then given.value else current
  }

  /** The record `from_telegram_user` saves: the Telegram id is learned only
      while it is unset, every other field is overwritten exactly when the
      key or the keyword argument supplies it. */
  function Merge(u: Account, key: TelegramUser, blocked: Option<bool>, count: Option<int>): (m: Account)
    // a learned (non-zero) Telegram id is never overwritten
    ensures u.telegramId.Some? && u.telegramId.value != DefaultTelegramId ==> m.telegramId == u.telegramId
    // an unset id is learned from a key that carries one
    ensures (u.telegramId.None? || u.telegramId == Some(DefaultTelegramId)) && key.id.Some? ==> m.telegramId == key.id
    ensures key.id.None? ==> m.telegramId == u.telegramId
    // a matched account still matches, and is bound to the key's id when it has one
    ensures Matches(u, key) ==> Matches(m, key)
    ensures Matches(u, key) && key.id.Some? ==> m.telegramId == key.id
    ensures m.firstName == (if key.firstName.Some? then key.firstName else u.firstName)
    ensures m.lastName == (if key.lastName.Some? then key.lastName else u.lastName)
    ensures m.username == (if key.username.Some? then key.username else u.username)
    ensures m.blocked == (if blocked.Some? then blocked.value else u.blocked)
    ensures m.accessRequestedCount == (if count.Some? then count.value else u.accessRequestedCount)
  {
    Account(
      telegramId := if (u.telegramId.None? || u.telegramId == Some(DefaultTelegramId)) && key.id.Some? then key.id else u.telegramId,
      firstName := if key.firstName.Some? then key.firstName else u.firstName,
      lastName := if key.lastName.Some? then key.lastName else u.lastName,
      username := if key.username.Some? then key.username else u.username,
      blocked := Override(blocked, u.blocked),
      accessRequestedCount := Override(count, u.accessRequestedCount))
  }

  /** The row `create_from_telegram_user` inserts: the id and first name
      verbatim, last name and username defaulting to '' when the key has
      none, and the keyword arguments over the column defaults. */
  function NewAccount(key: TelegramUser, blocked: Option<bool>, count: Option<int>): (a: Account)
    ensures Matches(a, key)
    ensures a.telegramId == key.id && a.firstName == key.firstName
    ensures a.lastName == (if key.lastName.Some? then key.lastName else Some(""))
    ensures a.username == (if key.username.Some? then key.username else Some(""))
    ensures a.blocked == (blocked == Some(true))
    ensures a.accessRequestedCount == (if count.Some? then count.value else 0)
  {
    Account(key.id, key.firstName,
      if key.lastName.Some? then key.lastName else Some(""),
      if key.username.Some? then key.username else Some(""),
      Override(blocked, false), Override(count, 0))
  }

  /** The row the earlier revision in yt2audiobot/usersdbmanager.py inserts:
      last name and username are copied verbatim, None included. */
  function NewAccountVerbatim(key: TelegramUser, blocked: Option<bool>, count: Option<int>): (a: Account)
    ensures Matches(a, key)
    ensures a.telegramId == key.id && a.firstName == key.firstName
    ensures a.lastName == key.lastName && a.username == key.username
    ensures a.blocked == (blocked == Some(true))
    ensures a.accessRequestedCount == (if count.Some? then count.value else 0)
  {
    Account(key.id, key.firstName, key.lastName, key.username, Override(blocked, false), Override(count, 0))
  }

  /** `unique=True` on telegram_id and on username: two rows never share a
      non-NULL value of either column (SQL lets NULLs repeat). */
  predicate Compatible(a: Account, b: Account) {
    && (a.telegramId.Some? ==> a.telegramId != b.telegramId)
    && (a.username.Some? ==> a.username != b.username)
  }

  predicate UniqueAccounts(users: seq<Account>) {
    forall i, j :: 0 <= i < |users| && 0 <= j < |users| && i != j ==> Compatible(users[i], users[j])
  }

  /** Every column is declared without `null=True`, so SQLite refuses a row
      holding NULL; peewee writes an explicit None as NULL. */
  predicate NotNull(a: Account) {
    a.telegramId.Some? && a.firstName.Some? && a.lastName.Some? && a.username.Some?
  }

  /** The NOT NULL and UNIQUE constraints admit inserting `a`. */
  predicate CanInsert(users: seq<Account>, a: Account) {
    NotNull(a) && forall j :: 0 <= j < |users| ==> Compatible(a, users[j])
  }

  /** The NOT NULL and UNIQUE constraints admit saving `a` over row `i`. */
  predicate CanSave(users: seq<Account>, i: nat, a: Account) {
    NotNull(a) && forall j :: 0 <= j < |users| && j != i ==> Compatible(a, users[j])
  }

  lemma CompatibleSymmetric(a: Account, b: Account)
    ensures Compatible(a, b) <==> Compatible(b, a)
  {
  }

  /** What a successful fetch hands back: the row and the merged record. */
  datatype Fetched = Fetched(row: nat, account: Account)

  /** `AuthorizedUser.from_telegram_user`: the result and the table afterwards. */
  function UserFromTelegramUser(users: seq<Account>, key: TelegramUser, blocked: Option<bool>, count: Option<int>,
                                updateDb: bool, dontRaise: bool): (res: (Result<Option<Fetched>>, seq<Account>))
    ensures |res.1| == |users|
    ensures res.0 == Err(InvalidKey) <==> !HasIdentity(key)
    // an unknown key changes nothing: None when asked not to raise, DoesNotExist otherwise
    ensures HasIdentity(key) && FirstMatch(users, key).None? ==>
              res == (if dontRaise then Ok(None) else Err(DoesNotExist), users)
    // a known key merges into its first matching row, saved unless a UNIQUE constraint refuses it
    ensures HasIdentity(key) && FirstMatch(users, key).Some? ==>
              var i := FirstMatch(users, key).value;
              var m := Merge(users[i], key, blocked, count);
              res == if !updateDb then (Ok(Some(Fetched(i, m))), users)
                     else if CanSave(users, i, m) then (Ok(Some(Fetched(i, m))), users[i := m])
                     else (Err(IntegrityError), users)
    // a learned Telegram id is never overwritten, in any row
    ensures forall j :: 0 <= j < |users| && users[j].telegramId.Some? && users[j].telegramId.value != DefaultTelegramId ==>
              res.1[j].telegramId == users[j].telegramId
    ensures UniqueAccounts(users) ==> UniqueAccounts(res.1)
  {
    match SelectUser(users, key)
    case Err(e) => (Err(e), users)
    case Ok(None) => (if dontRaise then Ok(None) else Err(DoesNotExist), users)
    case Ok(Some(i)) =>
      var m := Merge(users[i], key, blocked, count);
      if !updateDb then (Ok(Some(Fetched(i, m))), users)
      else if CanSave(users, i, m) then (Ok(Some(Fetched(i, m))), users[i := m])
      else (Err(IntegrityError), users)
  }

  /** `create_from_telegram_user` inserting the record `a` (NewAccount or
      NewAccountVerbatim of the key): refused when the key already matches
      a row, and by the UNIQUE constraints. */
  function CreateUser(users: seq<Account>, key: TelegramUser, a: Account): (res: (Result<nat>, seq<Account>))
    ensures res.0 == Err(InvalidKey) <==> !HasIdentity(key)
    ensures res.0 == Err(UserAlready) <==> HasIdentity(key) && FirstMatch(users, key).Some?
    ensures res.0 == Err(IntegrityError) <==> HasIdentity(key) && FirstMatch(users, key).None? && !CanInsert(users, a)
    // a failed create inserts nothing; a successful one inserts exactly `a`, at the end
    ensures res.0.Err? ==> res.1 == users
    ensures res.0.Ok? ==> res.0.value == |users| && res.1 == users + [a]
    ensures UniqueAccounts(users) ==> UniqueAccounts(res.1)
  {
    match SelectUser(users, key)
    case Err(e) => (Err(e), users)
    case Ok(Some(_)) => (Err(UserAlready), users)
    case Ok(None) => if CanInsert(users, a) then (Ok(|users|), users + [a]) else (Err(IntegrityError), users)
  }

  /** A created account is found by the key that created it, so a second create fails. */
  lemma CreateThenSelect(users: seq<Account>, key: TelegramUser, blocked: Option<bool>, count: Option<int>)
    requires CreateUser(users, key, NewAccount(key, blocked, count)).0.Ok?
    ensures var after := CreateUser(users, key, NewAccount(key, blocked, count)).1;
            && SelectUser(after, key) == Ok(Some(|users|))
            && CreateUser(after, key, NewAccount(key, blocked, count)) == (Err(UserAlready), after)
  {
    FirstMatchAppend(users, NewAccount(key, blocked, count), key);
  }

  /** A contact without a last name: the defaulting create stores it, the
      verbatim create of the earlier revision is refused by NOT NULL. */
  lemma VerbatimCreateRefusesMissingLastName(users: seq<Account>, key: TelegramUser, blocked: Option<bool>, count: Option<int>)
    requires HasIdentity(key) && FirstMatch(users, key).None?
    requires key.lastName.None?
    ensures CreateUser(users, key, NewAccountVerbatim(key, blocked, count)) == (Err(IntegrityError), users)
    ensures CanInsert(users, NewAccount(key, blocked, count)) ==>
              CreateUser(users, key, NewAccount(key, blocked, count)).0 == Ok(|users|)
  {
  }

  /** The row `create_from_telegram_user` evidently means to insert for a
      key without an id or a first name (what /addUser parses): every
      field the key lacks falls back to its column default, the Telegram
      id to DEFAULT_TELEGRAM_ID and the names to ''. */
  function NewAccountDefaulted(key: TelegramUser, blocked: Option<bool>, count: Option<int>): (a: Account)
    ensures NotNull(a)
    ensures key.username.Some? ==> Matches(a, key)
    ensures key.id.Some? ==> a.telegramId == key.id
    ensures key.id.None? ==> a.telegramId == Some(DefaultTelegramId)
    ensures a.firstName == Some(if key.firstName.Some? then key.firstName.value else "")
  {
    Account(Some(Override(key.id, DefaultTelegramId)), Some(Override(key.firstName, "")),
      if key.lastName.Some? then key.lastName else Some(""),
      if key.username.Some? then key.username else Some(""),
      Override(blocked, false), Override(count, 0))
  }

  /** For a key with an id and a first name, as every Telegram sender has,
      the defaulting row is the row the source inserts. */
  lemma NewAccountDefaultedAgrees(key: TelegramUser, blocked: Option<bool>, count: Option<int>)
    requires key.id.Some? && key.firstName.Some?
    ensures NewAccountDefaulted(key, blocked, count) == NewAccount(key, blocked, count)
  {
  }

  /** `is_authorized`. */
  predicate IsAuthorized(u: Account) {
    !u.blocked
  }

  /** `is_banned`: blocked, and more access requests than the ban threshold. */
  function IsBanned(u: Account): (b: bool)
    ensures b <==> u.blocked && u.accessRequestedCount > RequestedAccessForBan
    ensures b ==> !IsAuthorized(u)
  {
    if IsAuthorized(u) then false else u.accessRequestedCount > RequestedAccessForBan
  }

  /** `is_authorized_from_telegram_user`: the first matching row decides; no row means False. */
  function IsAuthorizedFromTelegramUser(users: seq<Account>, key: TelegramUser): (r: Result<bool>)
    ensures r.Err? <==> !HasIdentity(key)
    ensures r.Ok? ==> (r.value <==> FirstMatch(users, key).Some? && !users[FirstMatch(users, key).value].blocked)
  {
    match SelectUser(users, key)
    case Err(e) => Err(e)
    case Ok(None) => Ok(false)
    case Ok(Some(i)) => Ok(IsAuthorized(users[i]))
  }

  /** `is_banned_from_telegram_user`: the first matching row decides; no row means False. */
  function IsBannedFromTelegramUser(users: seq<Account>, key: TelegramUser): (r: Result<bool>)
    ensures r.Err? <==> !HasIdentity(key)
    ensures r.Ok? ==> (r.value <==> FirstMatch(users, key).Some? && IsBanned(users[FirstMatch(users, key).value]))
  {
    match SelectUser(users, key)
    case Err(e) => Err(e)
    case Ok(None) => Ok(false)
    case Ok(Some(i)) => Ok(IsBanned(users[i]))
  }

  /** A key is never both authorized and banned, and a key no row matches is neither. */
  lemma AuthorizedExcludesBanned(users: seq<Account>, key: TelegramUser)
    requires HasIdentity(key)
    ensures !(IsAuthorizedFromTelegramUser(users, key) == Ok(true) && IsBannedFromTelegramUser(users, key) == Ok(true))
    ensures FirstMatch(users, key).None? ==>
              IsAuthorizedFromTelegramUser(users, key) == Ok(false) && IsBannedFromTelegramUser(users, key) == Ok(false)
  {
  }
}
