/** The text the bot reads and writes in yt2audiobot.py: the argument of
    /addUser and /addAdmin (`username_or_telegram_id`), and the compact
    JSON callback data of the inline buttons with its 64-character limit. */
module Commands {
  import opened Common
  import opened Accounts
  import Decimal

  /** The whitespace `str.split()` splits on, in ASCII. */
  predicate IsSpace(c: char) {
    c == ' ' || c == '\t' || c == '\n' || c == '\r' || c == '\U{B}' || c == '\U{C}'
  }

  /** The length of the run of non-whitespace at the start of `s`. */
  function RunLength(s: string): (n: nat)
    ensures n <= |s|
    ensures forall i :: 0 <= i < n ==> !IsSpace(s[i])
    ensures n < |s| ==> IsSpace(s[n])
  {
    if |s| == 0 || IsSpace(s[0]) then 0 else 1 + RunLength(s[1..])
  }

  /** `s.split()`: the maximal runs of non-whitespace, in order. */
  function Tokens(s: string): (r: seq<string>)
    ensures forall k :: 0 <= k < |r| ==> |r[k]| > 0
    ensures forall k, i :: 0 <= k < |r| && 0 <= i < |r[k]| ==> !IsSpace(r[k][i])
    decreases |s|
  {
    if |s| == 0 then []
    else if IsSpace(s[0]) then Tokens(s[1..])
    else [s[..RunLength(s)]] + Tokens(s[RunLength(s)..])
  }

  /** A text without whitespace is one token. */
  lemma TokensOfWord(s: string)
    requires |s| > 0 && forall i :: 0 <= i < |s| ==> !IsSpace(s[i])
    ensures Tokens(s) == [s]
  {
    RunLengthOfWord(s);
    assert !IsSpace(s[0]);
    assert s[..|s|] == s;
    assert s[|s|..] == [];
  }

  lemma {:induction false} RunLengthOfWord(s: string)
    requires forall i :: 0 <= i < |s| ==> !IsSpace(s[i])
    ensures RunLength(s) == |s|
  {
    if |s| > 0 {
      RunLengthOfWord(s[1..]);
    }
  }

  /** The position of the first token made only of digits. */
  function FirstDigits(tokens: seq<string>): (r: Option<nat>)
    ensures r.Some? ==> r.value < |tokens| && Decimal.IsDigits(tokens[r.value])
    ensures r.Some? ==> forall k :: 0 <= k < r.value ==> !Decimal.IsDigits(tokens[k])
    ensures r.None? <==> forall k :: 0 <= k < |tokens| ==> !Decimal.IsDigits(tokens[k])
  {
    if |tokens| == 0 then None
    else if Decimal.IsDigits(tokens[0]) then Some(0)
    else match FirstDigits(tokens[1..])
      case None => None
      case Some(k) => Some(k + 1)
  }

  /** `[a-zA-Z0-9_]`. */
  predicate IsWordChar(c: char) {
    ('a' <= c <= 'z') || ('A' <= c <= 'Z') || ('0' <= c <= '9') || c == '_'
  }

  /** The length of the run of word characters at the start of `s`. */
  function WordRun(s: string): (n: nat)
    ensures n <= |s|
    ensures forall i :: 0 <= i < n ==> IsWordChar(s[i])
    ensures n < |s| ==> !IsWordChar(s[n])
  {
    if |s| == 0 || !IsWordChar(s[0]) then 0 else 1 + WordRun(s[1..])
  }

  /** Where group 2 of `^(#?@?)([a-zA-Z0-9_]+)` starts: after an optional
      '#' and then an optional '@'. Neither is a word character, so the
      greedy choice is the only one under which group 2 can match. */
  function HandleStart(text: string): (p: nat)
    ensures p <= |text| && p <= 2
  {
    var p := if |text| > 0 && text[0] == '#' then 1 else 0;
    if p < |text| && text[p] == '@' then p + 1 else p
  }

  /** The id-only key and the handle-only key the parser produces: on stored
      (NOT NULL) accounts the first matches exactly the account with that
      id, the second exactly the account with that username still waiting
      under the default id. */
  function IdKey(id: int): (k: TelegramUser)
    ensures HasIdentity(k)
    ensures forall u :: NotNull(u) ==> (Matches(u, k) <==> u.telegramId == Some(id))
  {
    TelegramUser(Some(id), None, None, None)
  }

  function HandleKey(handle: string): (k: TelegramUser)
    ensures HasIdentity(k)
    ensures forall u :: NotNull(u) ==>
              (Matches(u, k) <==> u.username == Some(handle) && u.telegramId == Some(DefaultTelegramId))
  {
    TelegramUser(None, None, None, Some(handle))
  }

  /** `username_or_telegram_id`: longer than 3 characters; the first
      whitespace-separated token made of digits gives an id-only key;
      otherwise the word run after an optional '#' and '@' is the handle,
      which must have 5 to 32 characters. Every refusal is a ParseException. */
  function UsernameOrTelegramId(text: string): (r: Result<TelegramUser>)
    ensures r.Err? ==> r.error == ParseError
    ensures |text| <= 3 ==> r.Err?
    ensures r.Ok? ==> HasIdentity(r.value)
    ensures r.Ok? ==> (r.value.id.Some? <==> r.value.username.None?)
    ensures r.Ok? ==> r.value.firstName.None? && r.value.lastName.None?
    ensures r.Ok? && r.value.username.Some? ==>
              5 <= |r.value.username.value| <= 32
              && forall i :: 0 <= i < |r.value.username.value| ==> IsWordChar(r.value.username.value[i])
  {
    if |text| <= 3 then Err(ParseError)
    else
      var tokens := Tokens(text);
      match FirstDigits(tokens)
      case Some(k) => Ok(IdKey(Decimal.DigitsValue(tokens[k])))
      case None =>
        var p := HandleStart(text);
        var n := WordRun(text[p..]);
        if n == 0 || n < 5 || n > 32 then Err(ParseError)
        else Ok(HandleKey(text[p..p + n]))
  }

  /** A Telegram id written out (at least 4 digits) parses to its id-only key. */
  lemma ParseId(n: nat)
    requires n >= 1000
    ensures UsernameOrTelegramId(Decimal.NatToString(n)) == Ok(IdKey(n))
  {
    var s := Decimal.NatToString(n);
    NatToStringAtLeastFourDigits(n);
    TokensOfWord(s);
    Decimal.DigitsValueOfNatToString(n);
  }

  lemma {:induction false} NatToStringAtLeastFourDigits(n: nat)
    requires n >= 1000
    ensures |Decimal.NatToString(n)| >= 4
  {
    assert Decimal.NatToString(n) == Decimal.NatToString(n / 10) + [Decimal.DigitChar(n % 10)];
    assert Decimal.NatToString(n / 10) == Decimal.NatToString(n / 100) + [Decimal.DigitChar(n / 10 % 10)];
    assert Decimal.NatToString(n / 100) == Decimal.NatToString(n / 1000) + [Decimal.DigitChar(n / 100 % 10)];
  }

  /** A handle of 5 to 32 word characters, written `@handle` or `#@handle`,
      parses to its handle-only key. */
  lemma ParseHandle(handle: string, hash: bool)
    requires 5 <= |handle| <= 32 && forall i :: 0 <= i < |handle| ==> IsWordChar(handle[i])
    ensures !hash ==> UsernameOrTelegramId("@" + handle) == Ok(HandleKey(handle))
    ensures hash ==> UsernameOrTelegramId("#@" + handle) == Ok(HandleKey(handle))
  {
    var prefix := if hash then "#@" else "@";
    var text := prefix + handle;
    assert forall i :: 0 <= i < |text| ==> !IsSpace(text[i]) by {
      forall i | 0 <= i < |text| ensures !IsSpace(text[i]) {
        if i >= |prefix| { assert text[i] == handle[i - |prefix|]; }
      }
    }
    TokensOfWord(text);
    assert !Decimal.IsDigit(text[0]);
    assert FirstDigits([text]) == None;
    assert HandleStart(text) == |prefix|;
    assert text[|prefix|..] == handle;
    WordRunOfWord(handle);
  }

  lemma {:induction false} WordRunOfWord(s: string)
    requires forall i :: 0 <= i < |s| ==> IsWordChar(s[i])
    ensures WordRun(s) == |s|
  {
    if |s| > 0 {
      WordRunOfWord(s[1..]);
    }
  }

  /** A handle outside 5..32 characters is refused. */
  lemma ParseHandleLength(handle: string)
    requires |handle| >= 3 && forall i :: 0 <= i < |handle| ==> IsWordChar(handle[i])
    requires |handle| < 5 || |handle| > 32
    ensures UsernameOrTelegramId("@" + handle) == Err(ParseError)
  {
    var text := "@" + handle;
    assert forall i :: 0 <= i < |text| ==> !IsSpace(text[i]) by {
      forall i | 0 <= i < |text| ensures !IsSpace(text[i]) {
        if i >= 1 { assert text[i] == handle[i - 1]; }
      }
    }
    TokensOfWord(text);
    assert !Decimal.IsDigit(text[0]);
    assert FirstDigits([text]) == None;
    assert text[1..] == handle;
    WordRunOfWord(handle);
  }

  /** `m.text.split(' ', 1)[1]`: the text after the first space, or the
      IndexError of a command without one. */
  function ArgumentOf(text: string): (r: Option<string>)
    ensures r.None? <==> forall i :: 0 <= i < |text| ==> text[i] != ' '
    ensures r.Some? ==> exists i :: 0 <= i < |text| && text[i] == ' ' && r.value == text[i + 1..]
                                    && forall j :: 0 <= j < i ==> text[j] != ' '
  {
    if |text| == 0 then None
    else if text[0] == ' ' then Some(text[1..])
    else match ArgumentOf(text[1..])
      case None => None
      case Some(a) =>
        var i :| 0 <= i < |text[1..]| && text[1..][i] == ' ' && a == text[1..][i + 1..]
                 && forall j :: 0 <= j < i ==> text[1..][j] != ' ';
        assert text[i + 1] == ' ' && a == text[i + 2..];
        Some(a)
  }

  /** The callback actions of the inline buttons. */
  datatype Decision = AgreeAsUser | AgreeAsAdmin | Deny | Ban
  datatype Action = ReqAccess | Decide(decision: Decision)

  /** The `act` value of each action. */
  function ActionName(a: Action): (s: string)
    ensures |s| > 0 && forall i :: 0 <= i < |s| ==> s[i] != '"'
  {
    match a
    case ReqAccess => "req_access"
    case Decide(AgreeAsUser) => "agree_user"
    case Decide(AgreeAsAdmin) => "agree_admin"
    case Decide(Deny) => "deny_user"
    case Decide(Ban) => "ban_user"
  }

  /** The action an `act` value names, if any. */
  function ActionNamed(s: string): (r: Option<Action>)
    ensures r.Some? ==> ActionName(r.value) == s
  {
    if s == "req_access" then Some(ReqAccess)
    else if s == "agree_user" then Some(Decide(AgreeAsUser))
    else if s == "agree_admin" then Some(Decide(AgreeAsAdmin))
    else if s == "deny_user" then Some(Decide(Deny))
    else if s == "ban_user" then Some(Decide(Ban))
    else None
  }

  lemma ActionNamedOfName(a: Action)
    ensures ActionNamed(ActionName(a)) == Some(a)
  {
  }

  /** `json.dumps({'act': .., 'cid': .., 'mid': ..}, separators=(',', ':'))`:
      the layout costs 24 characters around the three values. */
  function CallbackData(a: Action, chatId: int, messageId: int): (r: string)
    ensures |r| == 24 + |ActionName(a)| + |Decimal.IntToString(chatId)| + |Decimal.IntToString(messageId)|
  {
    "{\"act\":\"" + ActionName(a) + "\",\"cid\":" + Decimal.IntToString(chatId)
      + ",\"mid\":" + Decimal.IntToString(messageId) + "}"
  }

  /** The callback data of an `InlineKeyboardButtonActCidMid`, refused beyond
      the 64 characters Telegram accepts. */
  function ButtonData(a: Action, chatId: int, messageId: int): (r: Result<string>)
    ensures r.Err? <==> |CallbackData(a, chatId, messageId)| > 64
    ensures r.Err? ==> r.error == CallbackDataOverflow
    ensures r.Ok? ==> r.value == CallbackData(a, chatId, messageId) && |r.value| <= 64
  {
    var data := CallbackData(a, chatId, messageId);
    if |data| > 64 then Err(CallbackDataOverflow) else Ok(data)
  }

  /** Every button fits when the two ids take 29 characters or fewer together. */
  lemma ButtonFits(a: Action, chatId: int, messageId: int)
    requires |Decimal.IntToString(chatId)| + |Decimal.IntToString(messageId)| <= 29
    ensures ButtonData(a, chatId, messageId).Ok?
  {
  }

  /** The position of the first `c` in `s`. */
  function IndexOf(s: string, c: char): (r: Option<nat>)
    ensures r.Some? ==> r.value < |s| && s[r.value] == c && forall i :: 0 <= i < r.value ==> s[i] != c
    ensures r.None? ==> forall i :: 0 <= i < |s| ==> s[i] != c
  {
    if |s| == 0 then None
    else if s[0] == c then Some(0)
    else match IndexOf(s[1..], c)
      case None => None
      case Some(k) => Some(k + 1)
  }

  lemma {:induction false} IndexOfAfter(a: string, b: string, c: char)
    requires forall i :: 0 <= i < |a| ==> a[i] != c
    requires |b| > 0 && b[0] == c
    ensures IndexOf(a + b, c) == Some(|a|)
  {
    if |a| > 0 {
      assert (a + b)[1..] == a[1..] + b;
      IndexOfAfter(a[1..], b, c);
    } else {
      assert a + b == b;
    }
  }

  /** What a callback handler reads back with `json.loads`. */
  datatype Callback = Callback(action: Action, chatId: int, messageId: int)

  /** The rest of `s` after the literal `p`, if `s` starts with it. */
  function After(s: string, p: string): (r: Option<string>)
    ensures r.Some? ==> s == p + r.value
  {
    if |p| <= |s| && s[..|p|] == p then
      assert s == s[..|p|] + s[|p|..];
      Some(s[|p|..])
    else None
  }

  lemma AfterPrefix(p: string, rest: string)
    ensures After(p + rest, p) == Some(rest)
  {
    assert (p + rest)[..|p|] == p;
    assert (p + rest)[|p|..] == rest;
  }

  /** `s` cut before its first `c`. */
  function CutAt(s: string, c: char): (r: Option<(string, string)>)
    ensures r.Some? ==> s == r.value.0 + r.value.1 && |r.value.1| > 0 && r.value.1[0] == c
  {
    match IndexOf(s, c)
    case None => None
    case Some(i) =>
      assert s == s[..i] + s[i..];
      Some((s[..i], s[i..]))
  }

  lemma CutAtFirst(a: string, b: string, c: char)
    requires forall i :: 0 <= i < |a| ==> a[i] != c
    requires |b| > 0 && b[0] == c
    ensures CutAt(a + b, c) == Some((a, b))
  {
    IndexOfAfter(a, b, c);
    assert (a + b)[..|a|] == a;
    assert (a + b)[|a|..] == b;
  }

  /** `s` without its closing `}`. */
  function BeforeBrace(s: string): (r: Option<string>)
    ensures r.Some? ==> s == r.value + "}"
  {
    if |s| > 0 && s[|s| - 1] == '}' then
      assert s == s[..|s| - 1] + "}";
      Some(s[..|s| - 1])
    else None
  }

  lemma BeforeBraceOf(s: string)
    ensures BeforeBrace(s + "}") == Some(s)
  {
    assert (s + "}")[..|s|] == s;
  }

  /** `json.loads(call.data)` for data in the layout above. */
  function DecodeCallbackData(s: string): (r: Option<Callback>)
    // only text in the button layout decodes, and the action is the one named at its head
    ensures r.Some? ==> "{\"act\":\"" + ActionName(r.value.action) + "\",\"cid\":" <= s && s[|s| - 1] == '}'
  {
    match After(s, "{\"act\":\"")
    case None => None
    case Some(r1) =>
      match CutAt(r1, '"')
      case None => None
      case Some((name, r2)) =>
        match After(r2, "\",\"cid\":")
        case None => None
        case Some(r3) =>
          match CutAt(r3, ',')
          case None => None
          case Some((cid, r4)) =>
            match After(r4, ",\"mid\":")
            case None => None
            case Some(r5) =>
              match BeforeBrace(r5)
              case None => None
              case Some(mid) =>
                match (ActionNamed(name), Decimal.ParseInt(cid), Decimal.ParseInt(mid))
                case (Some(a), Some(c), Some(m)) =>
                  Layout(s, name, cid, mid, r1, r2, r3, r4, r5);
                  Some(Callback(a, c, m))
                case _ => None
  }

  /** The text the decoder peeled off starts with the action's field and
      ends with the closing brace. */
  lemma Layout(s: string, name: string, cid: string, mid: string,
               r1: string, r2: string, r3: string, r4: string, r5: string)
    requires s == "{\"act\":\"" + r1 && r1 == name + r2 && r2 == "\",\"cid\":" + r3
    requires r3 == cid + r4 && r4 == ",\"mid\":" + r5 && r5 == mid + "}"
    ensures "{\"act\":\"" + name + "\",\"cid\":" <= s && s[|s| - 1] == '}'
  {
    assert s == ("{\"act\":\"" + name + "\",\"cid\":") + r3;
    assert s == ("{\"act\":\"" + name + "\",\"cid\":" + cid + ",\"mid\":" + mid) + "}";
  }

  /** The handlers get back the action and both ids the button was made with. */
  lemma DecodeCallbackDataRoundTrip(a: Action, chatId: int, messageId: int)
    ensures DecodeCallbackData(CallbackData(a, chatId, messageId)) == Some(Callback(a, chatId, messageId))
  {
    var name := ActionName(a);
    var cid := Decimal.IntToString(chatId);
    var mid := Decimal.IntToString(messageId);
    var r5 := mid + "}";
    var r4 := ",\"mid\":" + r5;
    var r3 := cid + r4;
    var r2 := "\",\"cid\":" + r3;
    var r1 := name + r2;
    assert CallbackData(a, chatId, messageId) == "{\"act\":\"" + r1;
    AfterPrefix("{\"act\":\"", r1);
    CutAtFirst(name, r2, '"');
    AfterPrefix("\",\"cid\":", r3);
    Decimal.IntToStringHasNoSeparators(chatId);
    CutAtFirst(cid, r4, ',');
    AfterPrefix(",\"mid\":", r5);
    BeforeBraceOf(mid);
    ActionNamedOfName(a);
    Decimal.ParseIntOfIntToString(chatId);
    Decimal.ParseIntOfIntToString(messageId);
  }
}
