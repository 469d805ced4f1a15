# yt2audiobot in Dafny

A Dafny model of the two stores behind the yt2audiobot Telegram bot, and of the bot logic that changes them.

- **Users store.** This holds Telegram accounts (`AuthorizedUser`), the Admin extension of an account and the Root extension of an Admin. The model covers:
  - the identity rule that matches a contact to a stored account;
  - merging a contact's fields into that account;
  - create-if-absent;
  - the role checks, which are joins;
  - the root bootstrap count;
  - the access-request buttons;
  - the /addUser and /addAdmin commands.
- **Download cache.** This maps a YouTube video id to the Telegram file id of the audio already uploaded, plus a metadata row for each mapping. The model covers the three-way search, the composite insert-if-absent, the hit counter and the hit/miss loop over the videos of a link.
- **Song metadata.** This covers `SongMetadata` defaulting and formatting, bad-word removal, and the selection and fallback rule of `metadata_from_title`, including the regex error a title word can raise. Provider results are passed in.

The users store exists in three revisions, and each is modelled:

| revision | modelled by |
|---|---|
| `models` package (latest) | `Accounts`, `Roles`, `UsersStore` and `Bootstrap` |
| single-file `yt2audiobot/usersdbmanager.py` | the same members, plus `UsersStore.UsersDb.CreateFromTelegramUserVerbatim`. This revision's create copies `None` fields verbatim |
| oldest `usersdbmanager.py` | `LegacyUsers`, where `is_authorized` filters on `blocked` and `add_admin` refuses blocked accounts |

Apart from `create_from_telegram_user`, the middle revision's behaviour matches the latest one line for line. Its rows below cite its own lines next to the shared members.

Modelling decisions:

- **Tables and lookups.**
  - Every peewee table is a `seq` of rows in table order.
  - An account's primary key is its index. Accounts are never deleted by the modelled code.
  - An Admin row is (account index, chat id). A Root row is (admin's account index).
- **Comparisons with NULL.**
  - Peewee compiles `field == None` to `IS NULL`, so a stored value and a key value compare as `Option`s.
  - So a key without an id matches, on the id side, exactly the accounts whose id is NULL.
- **Constraints.**
  - The constraints visible in the model classes are enforced: `unique=True`, primary keys, and peewee's default NOT NULL.
  - A write that violates one yields `IntegrityError` and leaves the table unchanged.
  - SQLite does not enforce foreign keys by default, so joins are inner joins over whatever rows exist.
- **Stateful code as classes.**
  - `UsersStore.UsersDb` (users tables) and `AudioStore.AudioDb` (cache tables) are classes whose `seq` fields their methods reassign, as the source's `save()` and `create()` calls do.
  - `LegacyUsers.LegacyDb` plays the same role for the oldest controller.
  - Each method is proved equal to a function on the old tables. The lemmas about those functions state what the source promises.
- **Exceptions.** An exception is a `Result`/`Outcome` error value, and `Common.Error` lists the kinds. An exception that the bot lets escape from a handler is reported as `Fail`.
- **Operator input.** The operator's interactive answer ("yes" to recreate the tables) is a `recreate` parameter, and `exit(1)` is `Fail(OperatorAbort)`.
- **Two behaviours of the code a reader may not expect:**
  - When a root agrees to a user as admin, the new Admin row's chat id is the callback's `cid`, which is the target user's own id (yt2audiobot.py:464). It is not a chat id chosen by the root.
  - A search result with an entry but no metadata is a cache hit in `handle_youtube_link`. The stored file id is re-sent, and no metadata is back-filled (yt2audiobot.py:239-246).

## Model

| member | source | states |
|---|---|---|
| Common.Get | yt2audiobot/models/audiodbmanager.py:61-62 | `attributes.get(key, default)`: a missing key gives the default, an explicit None gives None, a value gives itself |
| Decimal.NatToString | yt2audiobot.py:211 | the decimal rendering of a number is a non-empty string of digits (what `isdigit` accepts) with no leading zero unless the number is 0 |
| Decimal.DigitsValueOfNatToString | yt2audiobot.py:211 | `int()` of the rendering of n is n |
| Decimal.ParseIntOfIntToString | yt2audiobot.py:433-435 | parsing the JSON rendering of any integer gives the integer back |
| Decimal.IntToStringHasNoSeparators | yt2audiobot.py:91-95 | a rendered integer contains no `,`, `}` or `"`, so it cannot end a JSON field early |
| Commands.RunLength | yt2audiobot.py:211 | the length of the leading non-whitespace run of a text |
| Commands.Tokens | yt2audiobot.py:211 | `text.split()`: every token is non-empty and contains no whitespace |
| Commands.TokensOfWord | yt2audiobot.py:211 | a non-empty text without whitespace splits into exactly itself |
| Commands.FirstDigits | yt2audiobot.py:211 | the index of the first token that is all digits, preceded only by tokens that are not; None iff no token is all digits |
| Commands.WordRun | yt2audiobot.py:215 | the length of the leading `[a-zA-Z0-9_]` run: all word characters, followed by a non-word character or the end |
| Commands.HandleStart | yt2audiobot.py:215 | the optional `#?@?` prefix is at most two characters long |
| Commands.UsernameOrTelegramId | yt2audiobot.py:209-223 | the only error is ParseError; a text of at most 3 characters fails; a result carries exactly one of id and username and no names; a username is 5..32 word characters |
| Commands.ParseId | yt2audiobot.py:210-213 | the decimal text of any id of at least 1000 parses to the id-only key for that id |
| Commands.ParseHandle | yt2audiobot.py:215-221 | `@handle` and `#@handle` with a valid handle parse to the username-only key for that handle |
| Commands.ParseHandleLength | yt2audiobot.py:219-220 | `@handle` with 3..4 or more than 32 word characters fails with ParseError |
| Commands.ArgumentOf | yt2audiobot.py:300 | `text.split(' ', 1)[1]`: None iff the text has no space, else the text after the first space |
| Commands.IdKey | yt2audiobot.py:213 | the id-only key has an identity, and a stored account matches it iff the account holds that id |
| Commands.HandleKey | yt2audiobot.py:221 | the handle-only key has an identity, and a stored account matches it iff it has that username and still waits under the default id 0 |
| Commands.ActionName | yt2audiobot.py:388-393 | every action's name is non-empty and holds no quote, so it stays one JSON string |
| Commands.ActionNamed | yt2audiobot.py:428-431 | an `act` value is dispatched to an action only when it is exactly that action's name |
| Commands.ActionNamedOfName | yt2audiobot.py:428-431 | dispatching on the `act` name recovers the action the button was built with |
| Commands.CallbackData | yt2audiobot.py:91-95 | the compact `separators=(',', ':')` JSON of the three entries, written in the order act, cid, mid, is 24 characters plus the lengths of its three values |
| Commands.ButtonData | yt2audiobot.py:89-101 | building a button fails with CallbackDataOverflow iff the callback data is longer than 64 characters; otherwise the data is that JSON |
| Commands.ButtonFits | yt2audiobot.py:97-98 | for any action, ids whose renderings total at most 29 characters always fit |
| Commands.DecodeCallbackData | yt2audiobot.py:433-435 | `json.loads` restricted to the text the model's buttons carry (act, cid, mid in that order, no whitespace): a text it decodes starts with the `act` field naming the decoded action, followed by `,"cid":`, and ends with `}` |
| Commands.DecodeCallbackDataRoundTrip | yt2audiobot.py:433-435 | `json.loads` of the data a button carries recovers its action, cid and mid |
| Accounts.Matches | yt2audiobot/models/authorizeduser.py:73-77 | the WHERE clause with `== None` as IS NULL: a key with neither an id nor a username matches no stored (NOT NULL) account |
| Accounts.FirstMatch | yt2audiobot/models/authorizeduser.py:73-78 | the first account in table order whose id equals the key's id, or whose username equals the key's while its id is still 0; None iff no account matches |
| Accounts.SelectUser | yt2audiobot/models/authorizeduser.py:70-78 | InvalidKey iff the key has neither id nor username, else the first matching account (None iff none matches); the single-file revision repeats it in yt2audiobot/usersdbmanager.py, lines 110-118 |
| Accounts.FirstMatchAppend | yt2audiobot/models/authorizeduser.py:73-78 | appending a row keeps an existing first match and otherwise makes the new row the first match exactly when it matches |
| Accounts.FirstMatchUpdate | yt2audiobot/models/authorizeduser.py:102-103 | saving a row that matches the key exactly when the old one did keeps the first match |
| Accounts.Override | yt2audiobot/models/authorizeduser.py:91-100 | a given argument replaces the field; None keeps the stored value |
| Accounts.Merge | yt2audiobot/models/authorizeduser.py:89-100 | a non-zero stored id is never overwritten; an unset id (None or 0) is learned from a key that has one; a matched account still matches afterwards; names, username, blocked and count are overwritten exactly when given; the single-file revision repeats it in yt2audiobot/usersdbmanager.py, lines 129-140 |
| Accounts.NewAccount | yt2audiobot/models/authorizeduser.py:124-136 | the created row matches the key, copies its id and first name, defaults a missing last name and username to '', and takes blocked/count when given (else False/0) |
| Accounts.NewAccountVerbatim | yt2audiobot/usersdbmanager.py:164-174 | the single-file revision's row copies id, names and username verbatim, None included |
| Accounts.UserFromTelegramUser | yt2audiobot/models/authorizeduser.py:82-104 | InvalidKey iff no id and no username; an unknown key changes nothing and gives None with `dont_raise`, else DoesNotExist; a known key merges into its first match, which is saved only with `update_db` and only when the UNIQUE constraints allow it |
| Accounts.CreateUser | yt2audiobot/models/authorizeduser.py:119-136 | UserAlready iff an account matches; IntegrityError iff the row breaks NOT NULL or UNIQUE; a failure inserts nothing; success appends exactly the new row at the end and keeps UNIQUE |
| Accounts.CreateThenSelect | yt2audiobot/models/authorizeduser.py:119-136 | after a successful create the key selects the new row, and a second create raises UserAlready and changes nothing |
| Accounts.VerbatimCreateRefusesMissingLastName | yt2audiobot/usersdbmanager.py:164-174 | a key without a last name cannot be created by the single-file revision (NOT NULL), while the latest revision's row for the same key is accepted when its values are unique |
| Accounts.NewAccountDefaulted | yt2audiobot/models/authorizeduser.py:124-127 | the corrected row for `add_user_from_type`: never NULL; matches a key with a username; keeps a given id and uses 0 otherwise; first name defaults to '' |
| Accounts.NewAccountDefaultedAgrees | yt2audiobot/models/authorizeduser.py:124-127 | for a key with an id and a first name, the corrected row is exactly the row `create_from_telegram_user` stores |
| Accounts.IsBanned | yt2audiobot/models/authorizeduser.py:63-66 | banned iff blocked and more than REQUESTED_ACCESS_FOR_BAN (5) requests; a banned account is not authorized; the single-file revision repeats it in yt2audiobot/usersdbmanager.py, lines 81-88 |
| Accounts.IsAuthorizedFromTelegramUser | yt2audiobot/models/authorizeduser.py:107-110 | InvalidKey iff no id and no username; otherwise true iff a first match exists and is not blocked |
| Accounts.IsBannedFromTelegramUser | yt2audiobot/models/authorizeduser.py:113-116 | InvalidKey iff no id and no username; otherwise true iff a first match exists and is banned |
| Accounts.AuthorizedExcludesBanned | yt2audiobot/models/authorizeduser.py:59-66 | no key is both authorized and banned, and an unknown key is neither |
| Roles.FirstAdmin | yt2audiobot/models/admin.py:50-55 | the first Admin row whose account satisfies the matching rule; None iff none does |
| Roles.SelectAdmin | yt2audiobot/models/admin.py:47-55 | InvalidKey iff no id and no username, else the first matching Admin row |
| Roles.AdminExists | yt2audiobot/models/admin.py:85-87 | InvalidKey iff no key fields; true iff some Admin row's account matches; true implies a matching account |
| Roles.RootExists | yt2audiobot/models/root.py:30-39 | InvalidKey iff no key fields; true iff some Root row's Admin's account matches; true implies an Admin for the key; the single-file revision repeats it in yt2audiobot/usersdbmanager.py, lines 273-282 |
| Roles.Containment | yt2audiobot/models/root.py:34-39 | root implies admin, and admin implies that a matching account is selected |
| Roles.ChatIdsOf | yt2audiobot/models/root.py:26-27 | the chat ids of the Admin rows of one account |
| Roles.RootChatIds | yt2audiobot/models/root.py:25-27 | a chat id is listed iff it belongs to an Admin row that has a Root row; the single-file revision repeats it in yt2audiobot/usersdbmanager.py, lines 267-270 |
| Roles.RootChatIdsOnePerRoot | yt2audiobot/models/root.py:25-27 | with one Admin row per account, and each root's Admin present, the list has one element per root |
| Roles.AdminFromTelegramUser | yt2audiobot/models/admin.py:59-82 | InvalidKey iff no key fields; no Admin for the key changes nothing (None or DoesNotExist); otherwise the first Admin's account is merged and its chat id set only when given; roots and table sizes never change |
| Roles.AdminFromTelegramUserKeepsValid | yt2audiobot/models/admin.py:79-81 | the saves keep every UNIQUE, primary-key and NOT NULL constraint |
| Roles.AdminFromTelegramUserKeepsAdmin | yt2audiobot/models/admin.py:66-81 | after a successful refresh the key is an admin exactly as before |
| Roles.AdminCreate | yt2audiobot/models/admin.py:90-106 | InvalidKey iff no key fields; UserAlready iff already an admin, changing nothing; a key with no account raises DoesNotExist and inserts nothing; any failure inserts no Admin row; the single-file revision repeats it in yt2audiobot/usersdbmanager.py, lines 244-259 |
| Roles.AdminCreateSuccess | yt2audiobot/models/admin.py:95-106 | a successful create unblocks the first matching account, resets its count to 0 and appends one Admin row with the given chat id, or 0; afterwards the key is an admin |
| Roles.AdminCreateKeepsAccounts | yt2audiobot/models/admin.py:95-101 | promotion never inserts an account: the create fallback is unreachable |
| Roles.AdminCreateKeepsValid | yt2audiobot/models/admin.py:19-22 | promotion keeps one Admin per account and unique chat ids |
| Roles.AdminCreateTwice | yt2audiobot/models/admin.py:91-94 | promoting the same key again raises UserAlready and changes nothing |
| UsersStore.UsersDb.constructor | yt2audiobot/dbmanager.py:40-41 | freshly created tables are empty and valid |
| UsersStore.UsersDb.Clear | yt2audiobot/dbmanager.py:44-45 | drop and recreate empties all three tables |
| UsersStore.UsersDb.SaveUser | yt2audiobot/models/authorizeduser.py:53-56 | `save()` replaces one account iff NOT NULL and UNIQUE allow it, else IntegrityError; the other tables are untouched |
| UsersStore.UsersDb.InsertUser | yt2audiobot/models/authorizeduser.py:136 | `create()` appends one account iff the constraints allow it, else IntegrityError and nothing changes |
| UsersStore.UsersDb.SaveAdmin | yt2audiobot/models/admin.py:79-80 | saves one Admin row iff its account and chat id stay unique |
| UsersStore.UsersDb.InsertAdmin | yt2audiobot/models/admin.py:106 | appends one Admin row iff its account and chat id are unused |
| UsersStore.UsersDb.DeleteAdmin | yt2audiobot.py:291 | `delete_instance()` removes exactly that Admin row |
| UsersStore.UsersDb.InsertRoot | yt2audiobot/dbmanager.py:67 | appends a Root row iff its Admin has none yet |
| UsersStore.UsersDb.FromTelegramUser | yt2audiobot/models/authorizeduser.py:82-104 | the result and new accounts are those of `Accounts.UserFromTelegramUser`; the role tables are untouched |
| UsersStore.UsersDb.CreateFromTelegramUser | yt2audiobot/models/authorizeduser.py:119-136 | the result and new accounts are those of `Accounts.CreateUser` with the latest revision's row |
| UsersStore.UsersDb.CreateFromTelegramUserVerbatim | yt2audiobot/usersdbmanager.py:160-174 | the same, with the single-file revision's verbatim row |
| UsersStore.UsersDb.AdminFromTelegramUser | yt2audiobot/models/admin.py:59-82 | the result and new tables are those of `Roles.AdminFromTelegramUser` |
| UsersStore.UsersDb.AdminCreateFromTelegramUser | yt2audiobot/models/admin.py:90-106 | the result and new tables are those of `Roles.AdminCreate` |
| Bootstrap.CountWhere | yt2audiobot/dbmanager.py:49-50 | `.count()` of a filter: at most the number of rows, and 0 iff no row qualifies |
| Bootstrap.SumTo | yt2audiobot/dbmanager.py:51 | a sum over rows is 0 iff every term is 0 |
| Bootstrap.Classify | yt2audiobot/dbmanager.py:53-56 | 3 passes; 0 raises RootDoesNotExist; anything else raises RootIsConfiguredIncorrectly |
| Bootstrap.UsersNamedAtMostOne | yt2audiobot/dbmanager.py:49 | with a UNIQUE username, at most one account has the root username |
| Bootstrap.AdminsNamedAtMostOne | yt2audiobot/dbmanager.py:50 | at most one Admin joins to the root username |
| Bootstrap.JoinsOfAtMostOne | yt2audiobot/dbmanager.py:51 | each Root row joins to at most one Admin with the root username |
| Bootstrap.RootsNamedAtMostOne | yt2audiobot/dbmanager.py:51 | the Root join count is at most 1, and is 1 iff a root is initialized |
| Bootstrap.RootCountClassification | yt2audiobot/dbmanager.py:48-56 | on valid tables the count is at most 3; it passes iff a Root joined to the root username exists; it is missing iff no account has the root username; the single-file revision repeats it in yt2audiobot/usersdbmanager.py, lines 311-319 |
| Bootstrap.InitRoot | yt2audiobot/dbmanager.py:59-69 | rows are only appended, at most one to each of the three tables, and it never asks the operator |
| Bootstrap.InitRootOutcome | yt2audiobot/dbmanager.py:59-69 | keeps the tables valid; an existing root changes nothing; success leaves the root initialized with count 3, and a second call changes nothing; the single-file revision repeats it in yt2audiobot/usersdbmanager.py, lines 323-333 |
| Bootstrap.InitRootOnFreshStore | yt2audiobot/dbmanager.py:63-68 | with no row named root, no id-0 account and no chat id 0, exactly one account ('Root', 'Root', name), one Admin and one Root are appended |
| Bootstrap.InitRootOnEmptyStore | yt2audiobot/dbmanager.py:63-68 | on empty tables the result is the one-account, one-Admin, one-Root store |
| Bootstrap.InitDb | yt2audiobot/dbmanager.py:122-151 | it aborts iff the count check fails and the operator refuses, and then the store is unchanged; a recreate leaves at most the root account |
| Bootstrap.InitDbOutcome | yt2audiobot/dbmanager.py:122-151 | a count of 3 changes nothing; any other count recreates the tables with only the root when the operator agrees, and otherwise aborts with nothing changed; success ends with count 3 |
| Bootstrap.CheckRoot | yt2audiobot/dbmanager.py:48-56 | the accumulated count is classified as `Classify` says |
| Bootstrap.ConnectToDb | yt2audiobot/dbmanager.py:116-119 | connecting succeeds iff the root is initialized, and otherwise fails with one of the two root errors |
| Bootstrap.InitializeRoot | yt2audiobot/dbmanager.py:59-69 | the result and new tables are those of `InitRoot` |
| Bootstrap.InitializeDb | yt2audiobot/dbmanager.py:122-151 | the result and new tables are those of `InitDb` |
| LegacyUsers.UserExists | usersdbmanager.py:120-121 | error iff no telegram_id and no username; otherwise true iff some account matches, blocked or not |
| LegacyUsers.IsAuthorized | usersdbmanager.py:123-124 | true iff some matching account is not blocked; implies `user_exists` |
| LegacyUsers.IsAdmin | usersdbmanager.py:126-127 | true iff some Admin row's account matches; implies `user_exists` |
| LegacyUsers.IsRoot | usersdbmanager.py:129-131 | true iff some Root row's Admin's account matches; implies `is_admin` |
| LegacyUsers.RoleContainment | usersdbmanager.py:116-131 | root implies admin implies account, and authorized implies account |
| LegacyUsers.RootChatIds | usersdbmanager.py:133-135 | a chat id is listed iff it belongs to an Admin row with a Root row |
| LegacyUsers.SearchAuthorizedUser | usersdbmanager.py:137-141 | the first matching account (unblocked unless `get_all`); None iff there is none |
| LegacyUsers.SearchAdmin | usersdbmanager.py:143-147 | the first matching Admin row; present iff `is_admin` |
| LegacyUsers.NewAccount | usersdbmanager.py:36-40 | `create(**attributes)` gives an unblocked row that matches the attributes |
| LegacyUsers.AddUserTo | usersdbmanager.py:149-153 | UserAlready iff the account exists; a failure changes nothing; success appends exactly one row, after which the user exists and is authorized |
| LegacyUsers.AddAdminTo | usersdbmanager.py:155-165 | UserAlready iff already an admin; UserBlocked iff the existing account is blocked; failures change nothing; success adds one Admin row, creating the account only when absent, and leaves roots alone |
| LegacyUsers.AddAdminOutcome | usersdbmanager.py:155-165 | the tables stay well formed, and after success the key is an admin whose account is not blocked |
| LegacyUsers.WithRoot | usersdbmanager.py:93-95 | one account, one Admin and one Root are appended, joined to the root username |
| LegacyUsers.Startup | usersdbmanager.py:67-96 | startup either succeeds with a root initialized or aborts with the tables unchanged, and keeps them well formed |
| LegacyUsers.CountOfThreeWithoutRoot | usersdbmanager.py:73-94 | three accounts named root pass the count check with no root at all; startup then adds the root rows, leaving a count of 6 |
| LegacyUsers.CountWhenUnnamed | usersdbmanager.py:73-75 | with no account named root the count is 0 and no root exists |
| LegacyUsers.StartupOnFreshStore | usersdbmanager.py:77-94 | with no account named root, startup appends the three root rows, whatever the operator answers, and the count becomes 3 |
| LegacyUsers.LegacyDb.constructor | usersdbmanager.py:67-96 | the new controller's tables are those of `Startup` |
| LegacyUsers.LegacyDb.AddAuthorizedUser | usersdbmanager.py:149-153 | the outcome and new accounts are those of `AddUserTo` |
| LegacyUsers.LegacyDb.AddAdmin | usersdbmanager.py:155-165 | the outcome and new tables are those of `AddAdminTo` |
| AudioCache.FirstEntry | yt2audiobot/models/audiodbmanager.py:55-64 | the first mapping whose youtube_id or telegram_file_id equals the given one; None iff none matches |
| AudioCache.MetadataOf | yt2audiobot/models/audiodbmanager.py:71-72 | the metadata row of a mapping; None iff it has none |
| AudioCache.Search | yt2audiobot/models/audiodbmanager.py:67-76 | InvalidKey iff both ids are missing; a miss iff no mapping matches; otherwise the first match, with its metadata row or a statement that there is none |
| AudioCache.EntryMatches | yt2audiobot/models/audiodbmanager.py:55-57 | the OR of the two id comparisons with `== None` as IS NULL: with both ids missing no stored mapping matches |
| AudioCache.SearchFor | yt2audiobot/models/audiodbmanager.py:60-63 | InvalidKey iff the keyword dict gives neither `youtube_id` nor `telegram_file_id`; otherwise a miss iff no mapping has a given id, and a found entry is a stored mapping holding one of the given ids |
| AudioCache.AddMapping | yt2audiobot/models/audiodbmanager.py:79-86 | CannotAddEntry when either id is missing; IntegrityError for a youtube_id already mapped; otherwise exactly one mapping is appended, with downloaded_times 1 |
| AudioCache.NewMetadata | yt2audiobot/models/audiodbmanager.py:95-104 | the metadata row copies title, author, album and date, and defaults track number, size and duration to 0; an explicit None for a NOT NULL number gives no row |
| AudioCache.AddMetadata | yt2audiobot/models/audiodbmanager.py:89-104 | KeyError without a youtube_id; an error with no title; failures change nothing; success appends exactly the one row, and only when the mapping has none |
| AudioCache.Reraised | yt2audiobot/models/audiodbmanager.py:114-115 | re-raising CannotAddEntry with `attributes['title']` becomes a KeyError when the title is missing |
| AudioCache.AddMappingKeepsValid | yt2audiobot/models/audiodbmanager.py:23 | adding a mapping keeps youtube_id a primary key |
| AudioCache.AddMetadataKeepsValid | yt2audiobot/models/audiodbmanager.py:32 | adding metadata keeps one row per mapping, each for an existing mapping |
| AudioCache.AddEntryAndMetadata | yt2audiobot/models/audiodbmanager.py:107-115 | rows are only appended, at most one mapping and one metadata row; an entry found with its metadata is left exactly as it is |
| AudioCache.AddEntryAndMetadataOutcome | yt2audiobot/models/audiodbmanager.py:107-115 | stays valid; a search error changes nothing; a found entry adds no mapping; a miss with both ids appends the mapping; a miss without them changes nothing; metadata is appended only to an entry without it |
| AudioCache.AddEntryAndMetadataThenSearch | yt2audiobot/models/audiodbmanager.py:107-113 | after a successful composite insert the same search finds an entry with metadata |
| AudioCache.RepeatKeepsFirstFileId | yt2audiobot/models/audiodbmanager.py:109-111 | inserting again for a cached video adds no mapping and keeps its first file id |
| AudioCache.SharedFileIdAddsNoMapping | yt2audiobot/models/audiodbmanager.py:55-57 | an insert whose file id is already stored finds that entry, or an earlier one, and creates no mapping |
| AudioCache.FirstDownloadIsCached | yt2audiobot/models/audiodbmanager.py:107-113 | on one example, on an empty cache one insert stores the mapping with count 1 and its metadata, and the video is then found with metadata |
| AudioCache.Hit | yt2audiobot.py:245-246 | a hit adds exactly 1 to that mapping's downloaded_times and changes nothing else |
| AudioCache.HitKeepsValid | yt2audiobot.py:245-246 | counting a hit keeps the cache constraints |
| AudioCache.HitKeepsSearch | yt2audiobot.py:245-246 | counting a hit does not change the result of any search |
| AudioStore.AudioDb.constructor | yt2audiobot/models/audiodbmanager.py:46-49 | the cache starts empty and valid |
| AudioStore.AudioDb.AddMapping | yt2audiobot/models/audiodbmanager.py:79-86 | the result and new tables are those of `AudioCache.AddMapping` |
| AudioStore.AudioDb.AddMetadata | yt2audiobot/models/audiodbmanager.py:89-104 | the outcome and new tables are those of `AudioCache.AddMetadata` |
| AudioStore.AudioDb.AddEntryAndMetadata | yt2audiobot/models/audiodbmanager.py:107-115 | the outcome and new tables are those of `AudioCache.AddEntryAndMetadata` |
| AudioStore.AudioDb.RecordHit | yt2audiobot.py:245-246 | the new tables are those of `AudioCache.Hit` |
| Downloads.UploadAttributes | yt2audiobot.py:255-259 | the insert's keyword dict carries the video id, the uploaded file's id, size and duration, and the song's metadata fields |
| Downloads.FoundByYoutubeId | yt2audiobot.py:237 | searching by a cached video's id finds exactly its mapping |
| Downloads.HitReusesFileId | yt2audiobot.py:239-246 | a cached video sends the stored file id once, records one more download and downloads nothing |
| Downloads.FailedDownloadWritesNothing | yt2audiobot.py:260-265 | a download error or an oversized file on a miss sends nothing and writes no cache entry |
| Downloads.DownloadIsCached | yt2audiobot.py:248-259 | a successful upload on a miss sends the new file id and appends its mapping, with count 1, and its metadata row, after which the video is found with metadata |
| Downloads.Step | yt2audiobot.py:236-265 | one video sends at most one audio, and a video that sends nothing writes nothing; no mapping is removed; a cached video always passes and sends exactly one audio |
| Downloads.UntitledDownloadEscapes | yt2audiobot/ythelper.py:136 | naming the downloaded file formats the song's metadata before the upload (yt2audiobot.py:249-255), so a new video whose song has no title raises TypeError with nothing sent or written, and the loop stops there |
| Downloads.MetadataErrorEscapes | yt2audiobot/ythelper.py:129 | `metadata_from_title` runs inside `download_video_and_extract_audio`, whose try catches only DownloadError (yt2audiobot/ythelper.py:138), and the loop catches only DownloadError and FileIsTooLargeException (yt2audiobot.py:261-266); so its error sends and writes nothing and ends the loop, whatever videos follow |
| Downloads.StepKeepsValid | yt2audiobot.py:236-265 | handling one video keeps the cache constraints |
| Downloads.StepExtends | yt2audiobot.py:236-265 | handling one video keeps every mapping's ids and never lowers a count |
| Downloads.Deliver | yt2audiobot.py:235-266 | over all the videos, at most one audio per video is sent and no mapping is removed |
| Downloads.DeliverTwo | yt2audiobot.py:235-266 | two videos whose steps both pass send the files of both steps in order and end with the second step's cache |
| Downloads.DeliverKeepsCache | yt2audiobot.py:235-266 | over all the videos of a link, the cache stays valid, only grows, and at most one file is sent per video |
| Downloads.CachedVideoIsNotDownloadedAgain | yt2audiobot.py:235-266 | on one example, the second time the same video comes up it is served from the cache: the file id is sent twice and the count becomes 2 |
| Downloads.CachedThenHit | yt2audiobot.py:235-266 | for any titled upload into an empty cache followed by any video with the same YouTube id, both send the uploaded file id, and the single mapping counts 2 downloads |
| Downloads.Serve | yt2audiobot.py:236-265 | the outcome, sent files and new tables are those of `Step` |
| Downloads.HandleYoutubeLink | yt2audiobot.py:235-266 | the loop's outcome, sent files and new tables are those of `Deliver` |
| Metadata.FromData | yt2audiobot/metadatahelper.py:28-36 | a key missing from the data becomes None, a present one is copied, and a missing or None track number becomes 0 |
| Metadata.NewSongMetadata | yt2audiobot/metadatahelper.py:28-36 | the attribute-setting loop builds exactly `FromData` |
| Metadata.Str | yt2audiobot/metadatahelper.py:39-48 | formatting fails with TypeError iff the title is None |
| Metadata.StrParts | yt2audiobot/metadatahelper.py:39-48 | the text starts with the title when there is no author, else `author - title`; ` (year)` follows only a known date; `, album` is appended only when printed and known |
| Metadata.FilenameBase | yt2audiobot/metadatahelper.py:51-52 | the file name form is the text without the album: a prefix of the full text, equal to it when there is no album |
| Metadata.RemoveAll | yt2audiobot/metadatahelper.py:57 | `str.replace(word, '')` never lengthens the text |
| Metadata.RemoveAllAbsent | yt2audiobot/metadatahelper.py:57 | a text without the word is unchanged |
| Metadata.RemoveAllPresent | yt2audiobot/metadatahelper.py:57 | a text containing the word gets shorter |
| Metadata.RemoveAllUnchanged | yt2audiobot/metadatahelper.py:57 | the text is unchanged iff it does not contain the word |
| Metadata.RemoveWords | yt2audiobot/metadatahelper.py:55-58 | removing the words in list order never lengthens the text |
| Metadata.RemoveWordsUnchanged | yt2audiobot/metadatahelper.py:55-58 | a text containing none of the words is returned unchanged |
| Metadata.RemoveBadWord | yt2audiobot/metadatahelper.py:55-58 | the loop over BAD_WORDS computes `RemoveWords` with the configured list |
| Metadata.StripSpans | yt2audiobot/metadatahelper.py:75-76 | `re.sub('\(.*?\)', '', ...)` never lengthens the text |
| Metadata.StripSpansLeavesNoSpan | yt2audiobot/metadatahelper.py:75-76 | no open/close span on one line is left after the substitution |
| Metadata.StripSpansUnchanged | yt2audiobot/metadatahelper.py:75-76 | a text without the opening bracket is unchanged |
| Metadata.Split | yt2audiobot/metadatahelper.py:79 | `split(' ')` gives at least one part, none containing the separator |
| Metadata.JoinSplit | yt2audiobot/metadatahelper.py:79 | joining the parts with the separator gives the text back |
| Metadata.RemoveFirst | yt2audiobot/metadatahelper.py:80-83 | `list.remove('')` drops one element when present and nothing otherwise, never adding a word |
| Metadata.SearchInText | yt2audiobot/metadatahelper.py:66-70 | the words are tried in order: False iff every word's search answers False; otherwise the answer of the first word that does not, True when it is found or the error when its pattern does not compile |
| Metadata.SearchInTextCompiled | yt2audiobot/metadatahelper.py:66-70 | when every word's pattern compiles, the answer is True iff some word is found as a whole word |
| Metadata.SearchInTextRaises | yt2audiobot/metadatahelper.py:62-70 | the search raises iff some word's pattern fails to compile before any word is found |
| Metadata.And | yt2audiobot/metadatahelper.py:88-90 | Python's `and` on tests that may raise: True iff both are; an error or False of the left side is the answer and the right side is not evaluated |
| Metadata.Judge | yt2audiobot/metadatahelper.py:88-90 | a Musixmatch candidate is taken iff it is rated over 75, its name and artist both match a title word and it has a spotify id; a rating of 75 or less rejects it without searching; an error comes from the name search, or from the artist search after the name matched |
| Metadata.SpotifyJudge | yt2audiobot/metadatahelper.py:105-106 | a Spotify result is taken iff its title and its space-joined artists both match a title word; an error comes from the title search, or from the artists search after the title matched |
| Metadata.FirstDecided | yt2audiobot/metadatahelper.py:86-113 | the loops stop at the first verdict that is not False: that index when it is True, its error when it raised; None iff every verdict is False |
| Metadata.FirstDecidedAt | yt2audiobot/metadatahelper.py:86-113 | the first verdict that is not False is the one the loop stops at |
| Metadata.DropFalse | yt2audiobot/metadatahelper.py:86-113 | removing a False verdict keeps the error raised, keeps whether a candidate is taken, and shifts the taken index down by one when it came after |
| Metadata.FirstAccepted | yt2audiobot/metadatahelper.py:86-102 | the first Musixmatch candidate whose verdict is not False decides, being taken or raising; None iff every candidate is rejected |
| Metadata.FirstSpotifyAccepted | yt2audiobot/metadatahelper.py:104-113 | the first Spotify result whose verdict is not False decides, being taken or raising; None iff every result is rejected |
| Metadata.SelectMusixmatch | yt2audiobot/metadatahelper.py:86-102 | the first Musixmatch candidate not rejected decides: its error escapes, or its name, artist, album and date are returned with Spotify's track number or 0 |
| Metadata.SelectSpotify | yt2audiobot/metadatahelper.py:104-113 | when every Musixmatch candidate is rejected, the first Spotify result not rejected decides: its error escapes, or its title, ` - `-joined artists, album and track number are returned with no date |
| Metadata.SelectFallback | yt2audiobot/metadatahelper.py:115-117 | when every candidate of both providers is rejected, the original title is returned with no author, album or date and track 0 |
| Metadata.SelectCompiled | yt2audiobot/metadatahelper.py:62-117 | when every title word's pattern compiles, `metadata_from_title` returns a result and raises nothing |
| Metadata.WithoutSpotifyIdSkipped | yt2audiobot/metadatahelper.py:90-102 | a Musixmatch candidate without a spotify id is never taken, and when its searches raise nothing it does not affect the result |
| Metadata.DropRejected | yt2audiobot/metadatahelper.py:86-102 | removing a rejected candidate changes neither the error raised nor which candidate is taken |
| Metadata.SelectFromResults | yt2audiobot/metadatahelper.py:86-117 | the two early-return loops, with the searches' errors escaping, compute `Select` |
| Metadata.MetadataFromTitle | yt2audiobot/metadatahelper.py:73-117 | cleaning the title and then selecting computes `MetadataFor` |
| Access.SaveAccount | yt2audiobot.py:419 | `auth_user.save()` changes only the saved row: it becomes the record iff NOT NULL and UNIQUE admit it, else IntegrityError with nothing changed |
| Access.SaveAccountKeepsConstraints | yt2audiobot/models/authorizeduser.py:19-26 | a save keeps UNIQUE telegram_id and username and the NOT NULL columns of every row |
| Access.RequestAccess | yt2audiobot.py:414-425 | an access request never removes an account |
| Access.RequestAccessOutcome | yt2audiobot.py:414-425 | an unknown user is created blocked with count 1 (IntegrityError if refused); a known account keeps its place and others are untouched; a blocked one counts one more request; an unblocked one is unchanged |
| Access.Requests | yt2audiobot.py:370-425 | pressing the button n times never removes an account and adds at most n |
| Access.FirstRequest | yt2audiobot.py:420-425 | the first request of a newcomer appends exactly a blocked row with count 1 |
| Access.RequestAgain | yt2audiobot.py:416-419 | a further request of a blocked newcomer adds 1 to its count and changes nothing else |
| Access.RepeatedRequests | yt2audiobot.py:414-425 | after n requests a newcomer's row has count n, and it is banned iff n exceeds REQUESTED_ACCESS_FOR_BAN |
| Access.Decided | yt2audiobot.py:469-479 | a decision leaves id, names and username; agreeing unblocks and resets the count; deny blocks and keeps it; ban blocks and sets it to REQUESTED_ACCESS_FOR_BAN + 1 |
| Access.Demote | yt2audiobot.py:288-294 | `delete_instance()` of the Admin row found removes exactly one row and no account or Root row; no row found changes nothing; under the constraints the demoted account has no Admin row left and the constraints hold |
| Access.SaveIn | yt2audiobot.py:469-471 | saving the decided record touches neither role table nor the number of accounts, and keeps the constraints |
| Access.Decide | yt2audiobot.py:443-495 | the tables stay valid, roots and the number of accounts never change, and an unknown target changes nothing |
| Access.Settle | yt2audiobot.py:448-483 | the tables stay valid, roots and the number of accounts never change; only agree-as-admin can add an Admin row, and at most one |
| Access.GiveAccess | yt2audiobot.py:441 | a non-root actor, or a root target, changes nothing; an unknown target is reported and changes nothing |
| Access.FetchById | yt2audiobot.py:445 | fetching the target by id finds its first match unchanged, or raises DoesNotExist |
| Access.AdminLookupById | yt2audiobot.py:446 | looking up the target's Admin row changes nothing and gives its first Admin row, if any |
| Access.DecideOnStored | yt2audiobot.py:445-483 | for a stored target, the decision is applied to its row with its Admin row, if any |
| Access.PromoteNew | yt2audiobot.py:464 | agreeing as admin to a non-admin appends an Admin row with chat id = cid, or fails with IntegrityError on a taken chat id |
| Access.PromoteExisting | yt2audiobot.py:464-467 | agreeing as admin to an admin only saves the decided row |
| Access.DemoteAny | yt2audiobot.py:452-458 | agree-as-user, deny and ban delete the target's Admin row, if any, and save the decided row |
| Access.GiveAccessDecided | yt2audiobot.py:441-483 | when a root decides about a stored non-root target, the target row and the Admin table change exactly as the decision says |
| Access.NoAdminAfterDemote | yt2audiobot.py:474-475 | after demotion the target is not an admin |
| Access.DemoteRemovesTargetRow | yt2audiobot.py:291 | deleting the first Admin row of the target leaves no Admin row for its account |
| Access.GiveAccessRoles | yt2audiobot.py:448-483 | a successful decision keeps the tables valid and roots unchanged; the target is authorized iff agreed; banned after a ban; an admin iff agreed as admin |
| Access.AddUser | yt2audiobot.py:297-311 | no argument or an unparsable one changes nothing; a known key changes nothing; otherwise the row is appended when the constraints allow it, else IntegrityError escapes |
| Access.AddUserCommand | yt2audiobot.py:506-511 | only an admin sender reaches `add_user_from_type`; others change nothing; an unusable sender key raises |
| Access.ArgumentAfterCommand | yt2audiobot.py:300 | the argument of `command arg` is `arg` when the command has no space |
| Access.AddUserHandleArgument | yt2audiobot.py:300-302 | `/addUser @handle` yields the username-only key for the handle |
| Access.AddUserIdArgument | yt2audiobot.py:300-302 | `/addUser <id>` yields the id-only key for the id |
| Access.AddUserByHandleRefused | yt2audiobot.py:304 | as written, adding a new user by handle always fails with IntegrityError and adds nothing |
| Access.AddUserByIdRefused | yt2audiobot.py:304 | as written, adding a new user by id always fails with IntegrityError and adds nothing |
| Access.AddUserByHandleDefaulted | yt2audiobot.py:297-304 | with defaulted fields, the handle's row is added, its first contact binds the contact's id to it, and the contact is authorized |
| Access.AddUserByIdDefaulted | yt2audiobot.py:297-304 | with defaulted fields, the id's row is added and the contact with that id is authorized |
| Access.SecondAccountWithoutUsernameRefused | yt2audiobot/models/authorizeduser.py:23 | an account without a username stores '', so a second such account breaks UNIQUE and is refused |
| Access.UpdateAdminUser | yt2audiobot.py:204-206 | outside a private chat nothing happens; in one, the sender's Admin row is refreshed with the chat id, and a non-admin sender gets None; tables stay valid and no role row is added or moved |
| Access.AddAdminCommand | yt2audiobot.py:514-521 | only a root sender gets through; its Admin row is refreshed first, then the argument is promoted; tables stay valid and roots unchanged |
| Access.PromoteArgument | yt2audiobot.py:297-311 | as written, a parsed key raises TypeError and changes nothing; as intended, it is `Admin.create_from_telegram_user` on the key, passing when created or already an admin |
| Access.AddAdminNeverPromotes | yt2audiobot.py:304 | as written, /addAdmin never adds or moves an Admin row |
| Access.CommandArgument | yt2audiobot.py:300 | `/addUser arg` and `/addAdmin arg` both hand exactly `arg` to the parser |
| Access.PromoteHandleUnfixed | yt2audiobot.py:304 | as written, promoting the argument `@handle` for a valid handle raises TypeError and changes nothing |
| Access.AddAdminByHandleRefused | yt2audiobot.py:514-521 | as written, a root's `/addAdmin @handle` ends in TypeError after the refresh |
| Access.AddAdminByHandlePromotes | yt2audiobot.py:514-521 | as intended, the handle becomes an admin when its create succeeds, and an existing admin is left as it was |
| Access.RequestThenAgreeAsAdmin | yt2audiobot.py:414-471 | on one example, a newcomer with id 42 requests access, giving a blocked row with count 1; the root then agrees as admin, which unblocks it, resets the count and adds the Admin row (1, 42) |
| Access.ReqAccessButton | yt2audiobot.py:370-425 | the outcome and new accounts are those of `RequestAccess`; the role tables are untouched |
| Access.GiveAccessButton | yt2audiobot.py:432-503 | the outcome and new tables are those of `GiveAccess` |
| Access.DecideOn | yt2audiobot.py:443-495 | the outcome and new tables are those of `Decide` |
| Access.SettleOn | yt2audiobot.py:448-483 | the outcome and new tables are those of `Settle` |

## Left out

- Telegram I/O is not modelled: messages, replies, edits, markups, callback answers, forwarding and `manage_exception`. Only the database changes of the handlers are modelled.
- The polling loop, `ExceptionCatcherTeleBot` and the help and start texts are left out. These are client plumbing.
- The `/start` handler is left out. It only reads the store to build a text.
- youtube-dl, opening the downloaded file and the upload are not modelled. Each video's download is a `Downloads.Download` value instead: failed, too large, ended by an error of the metadata search, or uploaded with a file id, size and duration.
- The YouTube link regex and `clean_link` are left out. A link is already its list of videos.
- The Musixmatch and Spotify HTTP clients are replaced by candidate lists passed in.
  - `Spotify.request_track` is a candidate's optional track number.
  - When that call raises, the track number is None.
- `find_whole_word` is the `wholeWord` parameter. It is a case-insensitive `\b` regex built from an unescaped word. Its answer is True, False, or `PatternError` for a word that is not a valid regular expression (such as `C++` or a lone `)`). Which words those are is regex syntax and is not modelled.
- Metadata.WithoutSpotifyIdSkipped: promises that dropping the candidate leaves the result unchanged only when its own searches raise nothing. A candidate without a spotify id whose name or artist search raises still ends the selection with that error.
- `write_metadata`, `get_valid_filename`, `rename_file` and `format_size` are left out. They cover file tags, Unicode normalisation, the file system and floating point.
- Metadata.FilenameBase: stops before `get_valid_filename`, so it states the text that function receives.
- `last_connection = datetime.now()` on save is left out. It is a clock read, and nothing in the core reads it back.
- Migrations, `_init_and_connect`, and the OperationalError branch of `initialize_db` for partly existing tables are left out. They are SQLite schema work.
- The interactive `input()`/`raw_input` answer is a `recreate: bool`, and `exit(1)` is `Fail(OperatorAbort)`.
- Commands.DecodeCallbackData: decodes only the compact act-cid-mid text with no whitespace, the text `json.dumps` writes when dicts keep insertion order (Python 3.7 and later). Python's `json.loads` also accepts other key orders and whitespace, and under Python 2.7 the same dict may be written in another key order. The length bound of `ButtonData` and `ButtonFits` holds for any key order.
- Commands.UsernameOrTelegramId: treats only the ASCII digits and the six ASCII whitespace characters as digits and whitespace. Python's `isdigit` also accepts other Unicode digits, and `split()` also splits on the ASCII separators `\x1c` to `\x1f` and on Unicode whitespace.
- LegacyUsers: does not tell an explicitly passed `None` apart from an omitted keyword, because the oldest controller's callers pass only `telegram_id` and `username`.
- `Root.get_root_chat_id` returns the chat ids in Root table order. SQL leaves the order of a join unspecified.
- `.limit(1).first()` and `.get()` are modelled as returning the lowest matching index. Without an ORDER BY, SQL leaves that choice unspecified too.
- The bot forces single-threaded polling, so concurrency is not modelled.
- Python integers and SQLite's 64-bit integers are modelled as unbounded. No counter in the core comes close to the limit.
- Unreachable branches: `UsersStore.UsersDb.FromTelegramUser` without `dont_raise` either raises or returns an account. The handlers' methods keep a `Pass` for a None result (yt2audiobot.py:416, 445), and their contracts show it is never reached.

## Findings

| source | as written | input that shows it | evidently intended | confidence | as-written member | corrected member |
|---|---|---|---|---|---|---|
| usersdbmanager.py:73-94 | a root count of 3 is taken as a configured root whatever tables the 3 rows come from, because `username` is not UNIQUE in this revision | three accounts with username `root` and no Admin or Root rows: the count is 3, no recreate is asked, the root rows are then added and the count becomes 6 | 3 only when the root account, its Admin row and its Root row exist; the later revision makes `username` UNIQUE (yt2audiobot/models/authorizeduser.py:23), so the count is 3 iff the root is initialized | not executed | LegacyUsers.CountOfThreeWithoutRoot | Bootstrap.RootCountClassification |
| yt2audiobot.py:304 | `/addUser` calls `AuthorizedUser.create_from_telegram_user` with a key from `username_or_telegram_id`, whose first name is None and, for a handle, whose id is None; `create` writes them as NULL into NOT NULL columns (yt2audiobot/models/authorizeduser.py:124-127) | an admin sends `/addUser @someuser` or `/addUser 123456` for a user not yet stored: IntegrityError, nothing added | the account is added with the column defaults (id 0, empty names), so the user is authorized at first contact | not executed | Access.AddUserByHandleRefused | Access.AddUserByHandleDefaulted |
| yt2audiobot.py:304 | the same call for an id argument fails on the NULL first name alone | an admin sends `/addUser 123456`: IntegrityError, nothing added | the account with that id is added with empty names and the contact with that id is authorized | not executed | Access.AddUserByIdRefused | Access.AddUserByIdDefaulted |
| yt2audiobot.py:304 | `/addAdmin` calls `Admin.create_from_telegram_user(tg_user, blocked=False, access_requested_count=0)`, but that method accepts only `chat_id` and positional extras (yt2audiobot/models/admin.py:91) | a root sends `/addAdmin @someadmin`: TypeError, no Admin row added | promote the key as `Admin.create_from_telegram_user(tg_user)` does | not executed | Access.AddAdminByHandleRefused | Access.AddAdminByHandlePromotes |
