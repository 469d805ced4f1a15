/** Song metadata as yt2audiobot/metadatahelper.py builds it: the
    SongMetadata record with its defaults and its display string, the
    bad-word filter, the cleaning of a video title into search words, and
    the rule that picks a Musixmatch candidate, else a Spotify candidate,
    else the video title itself. The providers' answers are inputs here,
    and `find_whole_word` is the parameter `wholeWord`, whose error for a
    word that is no valid pattern escapes the whole selection. */
module Metadata {
  import opened Common
  import Decimal

  /** `SongMetadata.keys`, in their order. */
  datatype Key = TitleKey | AuthorKey | AlbumKey | TrackNumberKey | FirstReleaseDateKey

  const Keys: seq<Key> := [TitleKey, AuthorKey, AlbumKey, TrackNumberKey, FirstReleaseDateKey]

  /** The `data` dict handed to `SongMetadata(data)`. */
  datatype SongData = SongData(
    title: Field<string>,
    author: Field<string>,
    album: Field<string>,
    trackNumber: Field<int>,
    firstReleaseDate: Field<Date>)

  /** A SongMetadata object; the track number is never None. */
  datatype SongMetadata = SongMetadata(
    title: Option<string>,
    author: Option<string>,
    album: Option<string>,
    trackNumber: int,
    firstReleaseDate: Option<Date>)

  /** The object `SongMetadata(data)` builds: every key missing from the dict
      becomes None, and a missing or None track number becomes 0. */
  function FromData(data: SongData): (m: SongMetadata)
    ensures data.title.Given? <==> m.title.Some?
    ensures data.title.Given? ==> m.title.value == data.title.value
    ensures data.author.Given? <==> m.author.Some?
    ensures data.author.Given? ==> m.author.value == data.author.value
    ensures data.album.Given? <==> m.album.Some?
    ensures data.album.Given? ==> m.album.value == data.album.value
    ensures data.firstReleaseDate.Given? <==> m.firstReleaseDate.Some?
    ensures data.firstReleaseDate.Given? ==> m.firstReleaseDate.value == data.firstReleaseDate.value
    ensures m.trackNumber == (if data.trackNumber.Given? then data.trackNumber.value else 0)
  {
    SongMetadata(Get(data.title, None), Get(data.author, None), Get(data.album, None),
                 if data.trackNumber.Given? then data.trackNumber.value else 0,
                 Get(data.firstReleaseDate, None))
  }

  /** The value `__init__` gives the attribute of `key` so far. */
  predicate HasAttribute(m: SongMetadata, track: Option<int>, data: SongData, key: Key) {
    match key
    case TitleKey => m.title == Get(data.title, None)
    case AuthorKey => m.author == Get(data.author, None)
    case AlbumKey => m.album == Get(data.album, None)
    case TrackNumberKey => track == Get(data.trackNumber, None)
    case FirstReleaseDateKey => m.firstReleaseDate == Get(data.firstReleaseDate, None)
  }

  /** `SongMetadata.__init__`: one attribute per key (the dict's value or
      None), then the track-number default. */
  method NewSongMetadata(data: SongData) returns (m: SongMetadata)
    ensures m == FromData(data)
  {
    m := SongMetadata(None, None, None, 0, None);
    var track: Option<int> := None;
    for k := 0 to |Keys|
      invariant forall j :: 0 <= j < k ==> HasAttribute(m, track, data, Keys[j])
    {
      match Keys[k]
      case TitleKey => m := m.(title := Get(data.title, None));
      case AuthorKey => m := m.(author := Get(data.author, None));
      case AlbumKey => m := m.(album := Get(data.album, None));
      case TrackNumberKey => track := Get(data.trackNumber, None);
      case FirstReleaseDateKey => m := m.(firstReleaseDate := Get(data.firstReleaseDate, None));
    }
    assert HasAttribute(m, track, data, Keys[0]) && HasAttribute(m, track, data, Keys[1]);
    assert HasAttribute(m, track, data, Keys[2]) && HasAttribute(m, track, data, Keys[3]);
    assert HasAttribute(m, track, data, Keys[4]);
    m := m.(trackNumber := if track.None? then 0 else track.value);
  }

  /** The head of the display string: `author - title`, or the title alone. */
  function Heading(author: Option<string>, title: string): string {
    (if author.Some? then author.value + " - " else "") + title
  }

  /** `__str__(printalbum)`: the heading, then ` (year)` when the release
      date is known, then `, album` when asked for and known. A None title
      cannot be concatenated. */
  function Str(m: SongMetadata, printAlbum: bool): (r: Result<string>)
    ensures r.Err? <==> m.title.None?
    ensures r.Err? ==> r.error == TypeError
  {
    if m.title.None? then Err(TypeError)
    else
      var text := Heading(m.author, m.title.value);
      var text := if m.firstReleaseDate.Some? then text + " (" + Decimal.IntToString(m.firstReleaseDate.value.year) + ")" else text;
      Ok(if printAlbum && m.album.Some? then text + ", " + m.album.value else text)
  }

  /** The shape of the display string, part by part. */
  lemma StrParts(m: SongMetadata)
    requires m.title.Some?
    ensures var head := Heading(m.author, m.title.value);
      // with the author first, or the title first when there is none
      && (m.author.None? ==> head == m.title.value)
      && (m.author.Some? ==> head == m.author.value + " - " + m.title.value)
      // the year follows only a known release date
      && (m.firstReleaseDate.None? ==> Str(m, false) == Ok(head))
      && (m.firstReleaseDate.Some? ==>
            Str(m, false) == Ok(head + " (" + Decimal.IntToString(m.firstReleaseDate.value.year) + ")"))
      // the album is appended only when it is printed and known
      && (m.album.None? ==> Str(m, true) == Str(m, false))
      && (m.album.Some? ==> Str(m, true) == Ok(Str(m, false).value + ", " + m.album.value))
  {
  }

  /** The name `to_filename` starts from: the display string without the album. */
  function FilenameBase(m: SongMetadata): (r: Result<string>)
    ensures m.album.None? ==> r == Str(m, true)
    ensures r.Ok? ==> Str(m, true).Ok? && r.value <= Str(m, true).value
  {
    if m.title.None? then Str(m, false)
    else StrParts(m); Str(m, false)
  }

  /** `BAD_WORDS` of yt2audiobot/settings.py. */
  const BadWords: seq<string> := ["[", "]", "(", ")", "ft", "feat", "Official", "Music", "Video"]

  /** `w` occurs in `s` at position `i`. */
  predicate OccursAt(s: string, w: string, i: nat) {
    i + |w| <= |s| && s[i..i + |w|] == w
  }

  /** `w` occurs in `s`. */
  predicate Contains(s: string, w: string) {
    exists i: nat :: i <= |s| && OccursAt(s, w, i)
  }

  /** `s.replace(w, '')`: every occurrence found scanning left to right, without overlaps, is deleted. */
  function RemoveAll(s: string, w: string): (r: string)
    requires |w| > 0
    ensures |r| <= |s|
    decreases |s|
  {
    if |s| < |w| then s
    else if s[..|w|] == w then RemoveAll(s[|w|..], w)
    else [s[0]] + RemoveAll(s[1..], w)
  }

  /** Text without the word passes through unchanged. */
  lemma {:induction false} RemoveAllAbsent(s: string, w: string)
    requires |w| > 0 && !Contains(s, w)
    ensures RemoveAll(s, w) == s
    decreases |s|
  {
    if |s| >= |w| {
      assert !OccursAt(s, w, 0);
      assert s[..|w|] != w;
      forall i: nat | i <= |s[1..]|
        ensures !OccursAt(s[1..], w, i)
      {
        if OccursAt(s[1..], w, i) {
          assert s[i + 1..i + 1 + |w|] == s[1..][i..i + |w|];
          assert OccursAt(s, w, i + 1);
        }
      }
      RemoveAllAbsent(s[1..], w);
    }
  }

  /** Text containing the word comes out shorter. */
  lemma {:induction false} RemoveAllPresent(s: string, w: string, i: nat)
    requires |w| > 0 && OccursAt(s, w, i)
    ensures |RemoveAll(s, w)| < |s|
    decreases |s|
  {
    if s[..|w|] != w {
      assert i > 0;
      assert s[1..][i - 1..i - 1 + |w|] == s[i..i + |w|];
      RemoveAllPresent(s[1..], w, i - 1);
    }
  }

  /** `replace` changes the text exactly when the word occurs in it. */
  lemma RemoveAllUnchanged(s: string, w: string)
    requires |w| > 0
    ensures RemoveAll(s, w) == s <==> !Contains(s, w)
  {
    if Contains(s, w) {
      var i: nat :| i <= |s| && OccursAt(s, w, i);
      RemoveAllPresent(s, w, i);
    } else {
      RemoveAllAbsent(s, w);
    }
  }

  /** Each word of `words` removed in turn, in list order. */
  function RemoveWords(s: string, words: seq<string>): (r: string)
    requires forall k :: 0 <= k < |words| ==> |words[k]| > 0
    ensures |r| <= |s|
    decreases |words|
  {
    if |words| == 0 then s else RemoveWords(RemoveAll(s, words[0]), words[1..])
  }

  /** Text containing none of the words passes through unchanged. */
  lemma {:induction false} RemoveWordsUnchanged(s: string, words: seq<string>)
    requires forall k :: 0 <= k < |words| ==> |words[k]| > 0
    requires forall k :: 0 <= k < |words| ==> !Contains(s, words[k])
    ensures RemoveWords(s, words) == s
    decreases |words|
  {
    if |words| > 0 {
      RemoveAllUnchanged(s, words[0]);
      RemoveWordsUnchanged(s, words[1..]);
    }
  }

  /** `remove_bad_word`: `text = text.replace(word, '')` for each bad word in order. */
  method RemoveBadWord(text: string) returns (r: string)
    ensures r == RemoveWords(text, BadWords)
  {
    r := text;
    for k := 0 to |BadWords|
      invariant RemoveWords(text, BadWords) == RemoveWords(r, BadWords[k..])
    {
      assert BadWords[k..][1..] == BadWords[k + 1..];
      r := RemoveAll(r, BadWords[k]);
    }
  }

  /** Where the lazy `.*?` of a bracket pattern stops: the first `close` in
      `s`, unless a newline (which `.` does not match) comes first. */
  function FindClose(s: string, close: char): (r: Option<nat>)
    requires close != '\n'
    ensures r.Some? ==> r.value < |s| && s[r.value] == close
    ensures r.Some? ==> forall k :: 0 <= k < r.value ==> s[k] != close && s[k] != '\n'
  {
    if |s| == 0 || s[0] == '\n' then None
    else if s[0] == close then Some(0)
    else match FindClose(s[1..], close)
      case None => None
      case Some(j) => Some(j + 1)
  }

  /** `re.sub('\(.*?\)', '', s)` for the bracket pair `open`/`close`: each
      shortest bracketed span on one line is deleted, scanning left to right. */
  function StripSpans(s: string, open: char, close: char): (r: string)
    requires close != '\n' && open != '\n'
    ensures |r| <= |s|
    decreases |s|
  {
    if |s| == 0 then ""
    else if s[0] == open && FindClose(s[1..], close).Some? then StripSpans(s[FindClose(s[1..], close).value + 2..], open, close)
    else [s[0]] + StripSpans(s[1..], open, close)
  }

  /** No bracketed span on one line is left: no `open` is followed by a `close` before a newline. */
  predicate NoSpan(s: string, open: char, close: char)
    requires close != '\n'
  {
    forall i :: 0 <= i < |s| && s[i] == open ==> FindClose(s[i + 1..], close).None?
  }

  /** Text with no `close` before its first newline keeps that property. */
  lemma {:induction false} StripSpansKeepsNoClose(s: string, open: char, close: char)
    requires close != '\n' && open != '\n' && open != close
    requires FindClose(s, close).None?
    ensures FindClose(StripSpans(s, open, close), close).None?
    decreases |s|
  {
    if |s| > 0 && s[0] != '\n' {
      var rest := StripSpans(s[1..], open, close);
      StripSpansKeepsNoClose(s[1..], open, close);
      assert StripSpans(s, open, close) == [s[0]] + rest;
      assert ([s[0]] + rest)[1..] == rest;
    }
  }

  /** Prefixing a character that is not `open` keeps NoSpan. */
  lemma ConsNoSpan(c: char, s: string, open: char, close: char)
    requires close != '\n'
    requires NoSpan(s, open, close)
    requires c != open || FindClose(s, close).None?
    ensures NoSpan([c] + s, open, close)
  {
    var t := [c] + s;
    forall i | 0 <= i < |t| && t[i] == open
      ensures FindClose(t[i + 1..], close).None?
    {
      if i > 0 {
        assert t[i + 1..] == s[i..];
        assert s[i - 1] == open;
      } else {
        assert t[1..] == s;
      }
    }
  }

  /** The regular expression leaves no complete bracketed span on a line. */
  lemma {:induction false} StripSpansLeavesNoSpan(s: string, open: char, close: char)
    requires close != '\n' && open != '\n' && open != close
    ensures NoSpan(StripSpans(s, open, close), open, close)
    decreases |s|
  {
    if |s| > 0 {
      if s[0] == open && FindClose(s[1..], close).Some? {
        StripSpansLeavesNoSpan(s[FindClose(s[1..], close).value + 2..], open, close);
      } else {
        StripSpansLeavesNoSpan(s[1..], open, close);
        if s[0] == open {
          StripSpansKeepsNoClose(s[1..], open, close);
        }
        ConsNoSpan(s[0], StripSpans(s[1..], open, close), open, close);
      }
    }
  }

  /** Text without an `open` bracket passes through unchanged. */
  lemma {:induction false} StripSpansUnchanged(s: string, open: char, close: char)
    requires close != '\n' && open != '\n'
    requires forall i :: 0 <= i < |s| ==> s[i] != open
    ensures StripSpans(s, open, close) == s
    decreases |s|
  {
    if |s| > 0 {
      StripSpansUnchanged(s[1..], open, close);
    }
  }

  /** `s.split(sep)`: the pieces between single separators, empty ones included. */
  function Split(s: string, sep: char): (r: seq<string>)
    ensures |r| > 0
    ensures forall k, i :: 0 <= k < |r| && 0 <= i < |r[k]| ==> r[k][i] != sep
  {
    if |s| == 0 then [""]
    else
      var rest := Split(s[1..], sep);
      if s[0] == sep then [""] + rest
      else [[s[0]] + rest[0]] + rest[1..]
  }

  /** `sep.join(parts)`. */
  function Join(sep: string, parts: seq<string>): string {
    if |parts| == 0 then ""
    else if |parts| == 1 then parts[0]
    else parts[0] + sep + Join(sep, parts[1..])
  }

  /** Splitting and joining with the same separator gives the text back. */
  lemma {:induction false} JoinSplit(s: string, sep: char)
    ensures Join([sep], Split(s, sep)) == s
  {
    if |s| > 0 {
      var rest := Split(s[1..], sep);
      JoinSplit(s[1..], sep);
      if s[0] == sep {
        assert Split(s, sep) == [""] + rest;
        assert ([""] + rest)[1..] == rest;
      } else {
        var r := Split(s, sep);
        assert r == [[s[0]] + rest[0]] + rest[1..];
        if |rest| > 1 {
          assert r[1..] == rest[1..];
          assert Join([sep], rest) == rest[0] + [sep] + Join([sep], rest[1..]);
        }
      }
    }
  }

  /** `list.remove(x)`: the first `x` goes; the ValueError of an absent `x` is
      caught by the caller, which keeps the list. */
  function RemoveFirst(words: seq<string>, x: string): (r: seq<string>)
    ensures x !in words ==> r == words
    ensures x in words ==> |r| == |words| - 1
    ensures forall w :: w in r ==> w in words
  {
    if |words| == 0 then []
    else if words[0] == x then words[1..]
    else [words[0]] + RemoveFirst(words[1..], x)
  }

  /** The cleaned query of `metadata_from_title`: parenthesised and bracketed
      spans removed, then the bad words. */
  function CleanTitle(origTitle: string): string {
    RemoveWords(StripSpans(StripSpans(origTitle, '(', ')'), '[', ']'), BadWords)
  }

  /** `title_words` of `metadata_from_title`. */
  function TitleWords(origTitle: string): seq<string> {
    RemoveFirst(Split(CleanTitle(origTitle), ' '), "")
  }

  /** `find_whole_word(w, text)` as the caller sees it: Ok(true) when the
      pattern `\b(w)\b` built from the unescaped word is found, Ok(false)
      when it is not, Err(PatternError) when `re.compile` rejects it. */
  type WholeWord = (string, string) -> Result<bool>

  /** `search_in_text`: the words are tried in order; the first that is
      found gives True, the first whose pattern does not compile raises. */
  function SearchInText(words: seq<string>, text: string, wholeWord: WholeWord): (r: Result<bool>)
    // False exactly when every word was tried and none was found
    ensures r == Ok(false) <==> forall k :: 0 <= k < |words| ==> wholeWord(words[k], text) == Ok(false)
    // otherwise the answer is that of the first word not answering False
    ensures r != Ok(false) ==>
              exists k :: 0 <= k < |words| && r == wholeWord(words[k], text)
                          && forall j :: 0 <= j < k ==> wholeWord(words[j], text) == Ok(false)
  {
    if |words| == 0 then Ok(false)
    else
      var first := wholeWord(words[0], text);
      var rest := SearchInText(words[1..], text, wholeWord);
      assert forall j :: 1 <= j < |words| ==> words[j] == words[1..][j - 1];
      if first == Ok(false) then rest else first
  }

  /** With patterns that all compile, `search_in_text` is True iff some word is found. */
  lemma SearchInTextCompiled(words: seq<string>, text: string, wholeWord: WholeWord)
    requires forall k :: 0 <= k < |words| ==> wholeWord(words[k], text).Ok?
    ensures SearchInText(words, text, wholeWord) == Ok(exists k :: 0 <= k < |words| && wholeWord(words[k], text) == Ok(true))
  {
    var r := SearchInText(words, text, wholeWord);
    if r != Ok(false) {
      var k :| 0 <= k < |words| && r == wholeWord(words[k], text)
                && forall j :: 0 <= j < k ==> wholeWord(words[j], text) == Ok(false);
      assert wholeWord(words[k], text).Ok?;
      assert r.value;
    }
  }

  /** `search_in_text` raises exactly when a word's pattern fails to compile
      before any word is found, and then with that word's error. */
  lemma SearchInTextRaises(words: seq<string>, text: string, wholeWord: WholeWord)
    ensures SearchInText(words, text, wholeWord).Err? <==>
              exists k :: 0 <= k < |words| && wholeWord(words[k], text).Err?
                          && forall j :: 0 <= j < k ==> wholeWord(words[j], text) == Ok(false)
  {
    var r := SearchInText(words, text, wholeWord);
    if exists k :: 0 <= k < |words| && wholeWord(words[k], text).Err?
                   && forall j :: 0 <= j < k ==> wholeWord(words[j], text) == Ok(false) {
      var k :| 0 <= k < |words| && wholeWord(words[k], text).Err?
                && forall j :: 0 <= j < k ==> wholeWord(words[j], text) == Ok(false);
      assert r != Ok(false);
      var i :| 0 <= i < |words| && r == wholeWord(words[i], text)
                && forall j :: 0 <= j < i ==> wholeWord(words[j], text) == Ok(false);
      assert !(i < k) && !(k < i);
    }
  }

  /** Python's `x and y` on two tests that may raise: y is evaluated only when x is True. */
  function And(x: Result<bool>, y: Result<bool>): (r: Result<bool>)
    ensures r == Ok(true) <==> x == Ok(true) && y == Ok(true)
    ensures x.Err? ==> r == x
    ensures x == Ok(false) ==> r == Ok(false)
    ensures x == Ok(true) ==> r == y
  {
    if x == Ok(true) then y else x
  }

  /** One Musixmatch `track.search` result, with the track number Spotify's
      `request_track` answered for its Spotify id (None when that request failed). */
  datatype MusixmatchTrack = MusixmatchTrack(
    rating: int,
    name: string,
    artist: string,
    album: Option<string>,
    spotifyId: string,
    firstReleaseDate: Option<Date>,
    spotifyTrackNumber: Option<int>)

  /** One Spotify search result. */
  datatype SpotifyTrack = SpotifyTrack(title: string, artists: seq<string>, album: string, trackNumber: int)

  /** The test of one Musixmatch result: rated above 75, then its name and
      its artist searched for a title word, then a Spotify id required.
      Ok(true) takes it, Ok(false) moves on, Err escapes. */
  function Judge(r: MusixmatchTrack, words: seq<string>, wholeWord: WholeWord): (v: Result<bool>)
    ensures v == Ok(true) <==> r.rating > 75 && SearchInText(words, r.name, wholeWord) == Ok(true)
                               && SearchInText(words, r.artist, wholeWord) == Ok(true) && |r.spotifyId| > 0
    // a low rating skips both searches, so nothing can escape
    ensures r.rating <= 75 ==> v == Ok(false)
    ensures v.Err? ==> r.rating > 75 && (SearchInText(words, r.name, wholeWord).Err? ||
                                         (SearchInText(words, r.name, wholeWord) == Ok(true) && SearchInText(words, r.artist, wholeWord).Err?))
  {
    if r.rating > 75 then And(And(SearchInText(words, r.name, wholeWord), SearchInText(words, r.artist, wholeWord)), Ok(|r.spotifyId| > 0))
    else Ok(false)
  }

  /** The test of one Spotify result: its title, then its space-joined artists, searched for a title word. */
  function SpotifyJudge(r: SpotifyTrack, words: seq<string>, wholeWord: WholeWord): (v: Result<bool>)
    ensures v == Ok(true) <==> SearchInText(words, r.title, wholeWord) == Ok(true)
                               && SearchInText(words, Join(" ", r.artists), wholeWord) == Ok(true)
    ensures v.Err? ==> SearchInText(words, r.title, wholeWord).Err? ||
                       (SearchInText(words, r.title, wholeWord) == Ok(true) && SearchInText(words, Join(" ", r.artists), wholeWord).Err?)
  {
    And(SearchInText(words, r.title, wholeWord), SearchInText(words, Join(" ", r.artists), wholeWord))
  }

  /** The loops of `metadata_from_title` over their candidates' verdicts:
      the first that is not Ok(false) decides, Ok(true) taking that
      candidate and an error escaping; Ok(None) when all are Ok(false). */
  function FirstDecided(verdicts: seq<Result<bool>>): (r: Result<Option<nat>>)
    ensures r == Ok(None) <==> forall j :: 0 <= j < |verdicts| ==> verdicts[j] == Ok(false)
    ensures r.Ok? && r.value.Some? ==>
              (r.value.value < |verdicts| && verdicts[r.value.value] == Ok(true)
               && forall j :: 0 <= j < r.value.value ==> verdicts[j] == Ok(false))
    ensures r.Err? ==> exists k :: 0 <= k < |verdicts| && verdicts[k] == Err(r.error)
                                   && forall j :: 0 <= j < k ==> verdicts[j] == Ok(false)
  {
    if |verdicts| == 0 then Ok(None)
    else
      var rest := FirstDecided(verdicts[1..]);
      assert forall j :: 1 <= j < |verdicts| ==> verdicts[j] == verdicts[1..][j - 1];
      if verdicts[0].Err? then Err(verdicts[0].error)
      else if verdicts[0].value then Ok(Some(0))
      else match rest
        case Err(e) => Err(e)
        case Ok(None) => Ok(None)
        case Ok(Some(k)) => Ok(Some(k + 1))
  }

  /** The verdict that decides is the first that is not Ok(false). */
  lemma FirstDecidedAt(verdicts: seq<Result<bool>>, k: nat)
    requires k < |verdicts| && verdicts[k] != Ok(false)
    requires forall j :: 0 <= j < k ==> verdicts[j] == Ok(false)
    ensures FirstDecided(verdicts) == if verdicts[k].Err? then Err(verdicts[k].error) else Ok(Some(k))
  {
    var r := FirstDecided(verdicts);
    if r.Err? {
      var i :| 0 <= i < |verdicts| && verdicts[i] == Err(r.error)
                && forall j :: 0 <= j < i ==> verdicts[j] == Ok(false);
      assert !(i < k) && !(k < i);
    } else if r.value.Some? {
      assert !(r.value.value < k) && !(k < r.value.value);
    }
  }

  /** Removing a verdict Ok(false) changes neither the error raised nor the
      candidate taken; a candidate after it moves down by one. */
  lemma {:induction false} DropFalse(verdicts: seq<Result<bool>>, k: nat)
    requires k < |verdicts| && verdicts[k] == Ok(false)
    ensures var a := FirstDecided(verdicts);
            var b := FirstDecided(verdicts[..k] + verdicts[k + 1..]);
            && (a.Err? <==> b.Err?) && (a.Err? ==> a == b)
            && (a.Ok? ==> (a.value.None? <==> b.value.None?))
            && (a.Ok? && a.value.Some? ==> b.value.value == if a.value.value < k then a.value.value else a.value.value - 1)
  {
    var rest := verdicts[..k] + verdicts[k + 1..];
    if k == 0 {
      assert rest == verdicts[1..];
    } else {
      assert rest[0] == verdicts[0];
      if verdicts[0] == Ok(false) {
        assert rest[1..] == verdicts[1..][..k - 1] + verdicts[1..][k..];
        DropFalse(verdicts[1..], k - 1);
      }
    }
  }

  /** The verdicts of the Musixmatch results, in order. */
  function Verdicts(results: seq<MusixmatchTrack>, words: seq<string>, wholeWord: WholeWord): (v: seq<Result<bool>>)
    ensures |v| == |results| && forall j :: 0 <= j < |results| ==> v[j] == Judge(results[j], words, wholeWord)
  {
    seq(|results|, j requires 0 <= j < |results| => Judge(results[j], words, wholeWord))
  }

  /** The verdicts of the Spotify results, in order. */
  function SpotifyVerdicts(results: seq<SpotifyTrack>, words: seq<string>, wholeWord: WholeWord): (v: seq<Result<bool>>)
    ensures |v| == |results| && forall j :: 0 <= j < |results| ==> v[j] == SpotifyJudge(results[j], words, wholeWord)
  {
    seq(|results|, j requires 0 <= j < |results| => SpotifyJudge(results[j], words, wholeWord))
  }

  /** The Musixmatch loop: the first result not rejected decides, by being
      taken or by raising; Ok(None) when every result is rejected. */
  function FirstAccepted(results: seq<MusixmatchTrack>, words: seq<string>, wholeWord: WholeWord): (r: Result<Option<nat>>)
    ensures r == Ok(None) <==> forall j :: 0 <= j < |results| ==> Judge(results[j], words, wholeWord) == Ok(false)
    ensures r.Ok? && r.value.Some? ==>
              (r.value.value < |results| && Judge(results[r.value.value], words, wholeWord) == Ok(true)
               && forall j :: 0 <= j < r.value.value ==> Judge(results[j], words, wholeWord) == Ok(false))
    ensures r.Err? ==> exists k :: 0 <= k < |results| && Judge(results[k], words, wholeWord) == Err(r.error)
                                   && forall j :: 0 <= j < k ==> Judge(results[j], words, wholeWord) == Ok(false)
  {
    FirstDecided(Verdicts(results, words, wholeWord))
  }

  /** The Spotify loop, in the same way. */
  function FirstSpotifyAccepted(results: seq<SpotifyTrack>, words: seq<string>, wholeWord: WholeWord): (r: Result<Option<nat>>)
    ensures r == Ok(None) <==> forall j :: 0 <= j < |results| ==> SpotifyJudge(results[j], words, wholeWord) == Ok(false)
    ensures r.Ok? && r.value.Some? ==>
              (r.value.value < |results| && SpotifyJudge(results[r.value.value], words, wholeWord) == Ok(true)
               && forall j :: 0 <= j < r.value.value ==> SpotifyJudge(results[j], words, wholeWord) == Ok(false))
    ensures r.Err? ==> exists k :: 0 <= k < |results| && SpotifyJudge(results[k], words, wholeWord) == Err(r.error)
                                   && forall j :: 0 <= j < k ==> SpotifyJudge(results[j], words, wholeWord) == Ok(false)
  {
    FirstDecided(SpotifyVerdicts(results, words, wholeWord))
  }

  /** The dict built from an accepted Musixmatch result. */
  function FromMusixmatch(r: MusixmatchTrack): SongMetadata {
    FromData(SongData(Given(r.name), Given(r.artist), FieldOf(r.album),
                      Given(if r.spotifyTrackNumber.Some? then r.spotifyTrackNumber.value else 0),
                      FieldOf(r.firstReleaseDate)))
  }

  /** The dict built from an accepted Spotify result: no release date. */
  function FromSpotify(r: SpotifyTrack): SongMetadata {
    FromData(SongData(Given(r.title), Given(Join(" - ", r.artists)), Given(r.album), Given(r.trackNumber), Absent))
  }

  /** The last resort: the video title and nothing else. */
  function Fallback(origTitle: string): SongMetadata {
    FromData(SongData(Given(origTitle), Absent, Absent, Absent, Absent))
  }

  /** The result `metadata_from_title` picks for the title words `words`, or the error that escapes it. */
  function Select(origTitle: string, words: seq<string>, musixmatch: seq<MusixmatchTrack>, spotify: seq<SpotifyTrack>,
                  wholeWord: WholeWord): Result<SongMetadata>
  {
    match FirstAccepted(musixmatch, words, wholeWord)
    case Err(e) => Err(e)
    case Ok(Some(k)) => Ok(FromMusixmatch(musixmatch[k]))
    case Ok(None) =>
      match FirstSpotifyAccepted(spotify, words, wholeWord)
      case Err(e) => Err(e)
      case Ok(Some(k)) => Ok(FromSpotify(spotify[k]))
      case Ok(None) => Ok(Fallback(origTitle))
  }

  /** What `metadata_from_title` returns, or raises, for the given provider answers. */
  function MetadataFor(origTitle: string, musixmatch: seq<MusixmatchTrack>, spotify: seq<SpotifyTrack>,
                       wholeWord: WholeWord): Result<SongMetadata>
  {
    Select(origTitle, TitleWords(origTitle), musixmatch, spotify, wholeWord)
  }

  /** The selection rule, first tier: the first Musixmatch result not
      rejected decides. Taken, it gives its name, artist, album and release
      date, with Spotify's track number or 0; raising, its error escapes. */
  lemma SelectMusixmatch(origTitle: string, words: seq<string>, musixmatch: seq<MusixmatchTrack>, spotify: seq<SpotifyTrack>,
                         wholeWord: WholeWord, k: nat)
    requires k < |musixmatch| && Judge(musixmatch[k], words, wholeWord) != Ok(false)
    requires forall j :: 0 <= j < k ==> Judge(musixmatch[j], words, wholeWord) == Ok(false)
    ensures var v := Judge(musixmatch[k], words, wholeWord);
            var m := Select(origTitle, words, musixmatch, spotify, wholeWord);
            var r := musixmatch[k];
            && (v.Err? ==> m == Err(v.error))
            && (v == Ok(true) ==>
                  m.Ok? && m.value.title == Some(r.name) && m.value.author == Some(r.artist)
                  && m.value.album == r.album && m.value.firstReleaseDate == r.firstReleaseDate
                  && m.value.trackNumber == (if r.spotifyTrackNumber.Some? then r.spotifyTrackNumber.value else 0))
  {
    FirstDecides(musixmatch, words, wholeWord, k);
  }

  /** Second tier: when every Musixmatch result is rejected, the first
      Spotify result not rejected decides. Taken, it gives its title, its
      artists joined by " - ", its album and track number and no date;
      raising, its error escapes. */
  lemma SelectSpotify(origTitle: string, words: seq<string>, musixmatch: seq<MusixmatchTrack>, spotify: seq<SpotifyTrack>,
                      wholeWord: WholeWord, k: nat)
    requires forall j :: 0 <= j < |musixmatch| ==> Judge(musixmatch[j], words, wholeWord) == Ok(false)
    requires k < |spotify| && SpotifyJudge(spotify[k], words, wholeWord) != Ok(false)
    requires forall j :: 0 <= j < k ==> SpotifyJudge(spotify[j], words, wholeWord) == Ok(false)
    ensures var v := SpotifyJudge(spotify[k], words, wholeWord);
            var m := Select(origTitle, words, musixmatch, spotify, wholeWord);
            var r := spotify[k];
            && (v.Err? ==> m == Err(v.error))
            && (v == Ok(true) ==> m == Ok(SongMetadata(Some(r.title), Some(Join(" - ", r.artists)), Some(r.album), r.trackNumber, None)))
  {
    assert FirstAccepted(musixmatch, words, wholeWord) == Ok(None);
    FirstSpotifyDecides(spotify, words, wholeWord, k);
  }

  /** Last tier: when every result of both is rejected, the video title
      with no author, album or date and track number 0. */
  lemma SelectFallback(origTitle: string, words: seq<string>, musixmatch: seq<MusixmatchTrack>, spotify: seq<SpotifyTrack>,
                       wholeWord: WholeWord)
    requires forall j :: 0 <= j < |musixmatch| ==> Judge(musixmatch[j], words, wholeWord) == Ok(false)
    requires forall j :: 0 <= j < |spotify| ==> SpotifyJudge(spotify[j], words, wholeWord) == Ok(false)
    ensures Select(origTitle, words, musixmatch, spotify, wholeWord) == Ok(SongMetadata(Some(origTitle), None, None, 0, None))
  {
  }

  /** The Musixmatch result that is the first not rejected is the one the loop stops at. */
  lemma FirstDecides(results: seq<MusixmatchTrack>, words: seq<string>, wholeWord: WholeWord, k: nat)
    requires k < |results| && Judge(results[k], words, wholeWord) != Ok(false)
    requires forall j :: 0 <= j < k ==> Judge(results[j], words, wholeWord) == Ok(false)
    ensures var v := Judge(results[k], words, wholeWord);
            FirstAccepted(results, words, wholeWord) == if v.Err? then Err(v.error) else Ok(Some(k))
  {
    FirstDecidedAt(Verdicts(results, words, wholeWord), k);
  }

  /** The Spotify result that is the first not rejected is the one the loop stops at. */
  lemma FirstSpotifyDecides(results: seq<SpotifyTrack>, words: seq<string>, wholeWord: WholeWord, k: nat)
    requires k < |results| && SpotifyJudge(results[k], words, wholeWord) != Ok(false)
    requires forall j :: 0 <= j < k ==> SpotifyJudge(results[j], words, wholeWord) == Ok(false)
    ensures var v := SpotifyJudge(results[k], words, wholeWord);
            FirstSpotifyAccepted(results, words, wholeWord) == if v.Err? then Err(v.error) else Ok(Some(k))
  {
    FirstDecidedAt(SpotifyVerdicts(results, words, wholeWord), k);
  }

  /** Only `find_whole_word` raises: when every title word's pattern
      compiles, `metadata_from_title` returns a result. */
  lemma SelectCompiled(origTitle: string, words: seq<string>, musixmatch: seq<MusixmatchTrack>, spotify: seq<SpotifyTrack>,
                       wholeWord: WholeWord)
    requires forall k, text :: 0 <= k < |words| ==> wholeWord(words[k], text).Ok?
    ensures Select(origTitle, words, musixmatch, spotify, wholeWord).Ok?
  {
    forall text
      ensures SearchInText(words, text, wholeWord).Ok?
    {
      SearchInTextRaises(words, text, wholeWord);
    }
    forall r: MusixmatchTrack
      ensures Judge(r, words, wholeWord).Ok?
    {
    }
    forall r: SpotifyTrack
      ensures SpotifyJudge(r, words, wholeWord).Ok?
    {
    }
    assert FirstAccepted(musixmatch, words, wholeWord).Ok?;
    assert FirstSpotifyAccepted(spotify, words, wholeWord).Ok?;
  }

  /** A Musixmatch result without a Spotify id is never taken; when its
      searches raise nothing, dropping it from the answer changes nothing. */
  lemma WithoutSpotifyIdSkipped(origTitle: string, musixmatch: seq<MusixmatchTrack>, k: nat, spotify: seq<SpotifyTrack>,
                                wholeWord: WholeWord)
    requires k < |musixmatch| && musixmatch[k].spotifyId == ""
    ensures Judge(musixmatch[k], TitleWords(origTitle), wholeWord) != Ok(true)
    ensures Judge(musixmatch[k], TitleWords(origTitle), wholeWord).Ok? ==>
              MetadataFor(origTitle, musixmatch, spotify, wholeWord)
                == MetadataFor(origTitle, musixmatch[..k] + musixmatch[k + 1..], spotify, wholeWord)
  {
    if Judge(musixmatch[k], TitleWords(origTitle), wholeWord).Ok? {
      var v := Judge(musixmatch[k], TitleWords(origTitle), wholeWord);
      assert v != Ok(true);
      assert !v.value;
      assert v == Ok(false);
      DropRejected(musixmatch, k, TitleWords(origTitle), wholeWord);
    }
  }

  /** Removing a rejected result changes neither the error raised nor the
      result taken; the taken one, if after it, moves down by one. */
  lemma DropRejected(results: seq<MusixmatchTrack>, k: nat, words: seq<string>, wholeWord: WholeWord)
    requires k < |results| && Judge(results[k], words, wholeWord) == Ok(false)
    ensures var a := FirstAccepted(results, words, wholeWord);
            var b := FirstAccepted(results[..k] + results[k + 1..], words, wholeWord);
            && (a.Err? <==> b.Err?) && (a.Err? ==> a == b)
            && (a.Ok? ==> (a.value.None? <==> b.value.None?))
            && (a.Ok? && a.value.Some? ==> results[a.value.value] == (results[..k] + results[k + 1..])[b.value.value])
  {
    var v := Verdicts(results, words, wholeWord);
    VerdictsWithout(results, k, words, wholeWord);
    DropFalse(v, k);
    var a := FirstDecided(v);
    var b := FirstDecided(v[..k] + v[k + 1..]);
    assert FirstAccepted(results[..k] + results[k + 1..], words, wholeWord) == b;
    if a.Ok? && a.value.Some? {
      var i := a.value.value;
      assert i != k by { assert v[i] == Ok(true); }
      ElementWithout(results, k, i);
      assert b.value.value == if i < k then i else i - 1;
    }
  }

  /** The verdicts of the results without one are the verdicts without its own. */
  lemma VerdictsWithout(results: seq<MusixmatchTrack>, k: nat, words: seq<string>, wholeWord: WholeWord)
    requires k < |results|
    ensures var v := Verdicts(results, words, wholeWord);
            Verdicts(results[..k] + results[k + 1..], words, wholeWord) == v[..k] + v[k + 1..]
  {
    var v := Verdicts(results, words, wholeWord);
    var rest := results[..k] + results[k + 1..];
    var w := Verdicts(rest, words, wholeWord);
    forall j | 0 <= j < |w|
      ensures w[j] == (v[..k] + v[k + 1..])[j]
    {
      if j < k {
        assert rest[j] == results[j] && (v[..k] + v[k + 1..])[j] == v[j];
      } else {
        assert rest[j] == results[j + 1] && (v[..k] + v[k + 1..])[j] == v[j + 1];
      }
    }
    assert |w| == |v[..k] + v[k + 1..]|;
  }

  /** Without the element at k, the element at i != k moves down when it came after k. */
  lemma ElementWithout<T>(s: seq<T>, k: nat, i: nat)
    requires k < |s| && i < |s| && i != k
    ensures (s[..k] + s[k + 1..])[if i < k then i else i - 1] == s[i]
  {
    if i < k { assert (s[..k] + s[k + 1..])[i] == s[..k][i]; }
    else { assert (s[..k] + s[k + 1..])[i - 1] == s[k + 1..][i - 1 - k]; }
  }

  /** The candidate loops of `metadata_from_title`, returning on the first
      accepted result, else the fallback; an error of `search_in_text` escapes. */
  method SelectFromResults(origTitle: string, words: seq<string>, musixmatch: seq<MusixmatchTrack>, spotify: seq<SpotifyTrack>,
                           wholeWord: WholeWord) returns (m: Result<SongMetadata>)
    ensures m == Select(origTitle, words, musixmatch, spotify, wholeWord)
  {
    for k := 0 to |musixmatch|
      invariant forall j :: 0 <= j < k ==> Judge(musixmatch[j], words, wholeWord) == Ok(false)
    {
      var r := musixmatch[k];
      if r.rating > 75 {
        var name := SearchInText(words, r.name, wholeWord);
        if name.Err? {
          FirstDecides(musixmatch, words, wholeWord, k);
          return Err(name.error);
        }
        if name.value {
          var artist := SearchInText(words, r.artist, wholeWord);
          if artist.Err? {
            FirstDecides(musixmatch, words, wholeWord, k);
            return Err(artist.error);
          }
          if artist.value {
            var trackNumber := 0;
            if |r.spotifyId| > 0 {
              if r.spotifyTrackNumber.Some? {
                trackNumber := r.spotifyTrackNumber.value;
              }
              var song := NewSongMetadata(SongData(Given(r.name), Given(r.artist), FieldOf(r.album),
                                                   Given(trackNumber), FieldOf(r.firstReleaseDate)));
              assert song == FromMusixmatch(r);
              FirstDecides(musixmatch, words, wholeWord, k);
              return Ok(song);
            }
          }
        }
      }
    }
    assert FirstAccepted(musixmatch, words, wholeWord) == Ok(None);
    for k := 0 to |spotify|
      invariant forall j :: 0 <= j < k ==> SpotifyJudge(spotify[j], words, wholeWord) == Ok(false)
    {
      var r := spotify[k];
      var title := SearchInText(words, r.title, wholeWord);
      if title.Err? {
        FirstSpotifyDecides(spotify, words, wholeWord, k);
        return Err(title.error);
      }
      if title.value {
        var artists := SearchInText(words, Join(" ", r.artists), wholeWord);
        if artists.Err? {
          FirstSpotifyDecides(spotify, words, wholeWord, k);
          return Err(artists.error);
        }
        if artists.value {
          var song := NewSongMetadata(SongData(Given(r.title), Given(Join(" - ", r.artists)), Given(r.album),
                                               Given(r.trackNumber), Absent));
          assert song == FromSpotify(r);
          FirstSpotifyDecides(spotify, words, wholeWord, k);
          return Ok(song);
        }
      }
    }
    assert FirstSpotifyAccepted(spotify, words, wholeWord) == Ok(None);
    var song := NewSongMetadata(SongData(Given(origTitle), Absent, Absent, Absent, Absent));
    m := Ok(song);
  }

  /** `metadata_from_title`: clean the title into words, then select. */
  method MetadataFromTitle(origTitle: string, musixmatch: seq<MusixmatchTrack>, spotify: seq<SpotifyTrack>,
                           wholeWord: WholeWord) returns (m: Result<SongMetadata>)
    ensures m == MetadataFor(origTitle, musixmatch, spotify, wholeWord)
  {
    var title := StripSpans(StripSpans(origTitle, '(', ')'), '[', ']');
    title := RemoveBadWord(title);
    var words := RemoveFirst(Split(title, ' '), "");
    assert words == TitleWords(origTitle);
    m := SelectFromResults(origTitle, words, musixmatch, spotify, wholeWord);
  }
}
