/** The download cache of yt2audiobot/models/audiodbmanager.py: the
    YoutubeToTelegramFile table mapping a YouTube video to the Telegram file
    already uploaded for it, the AudioMetadata table beside it, the lookup
    by YouTube id or Telegram file id, and the insert-if-absent that the bot
    runs after an upload. */
module AudioCache {
  import opened Common

  /** One YoutubeToTelegramFile row; `youtube_id` is its primary key. */
  datatype Mapping = Mapping(youtubeId: string, telegramFileId: string, downloadedTimes: int)

  /** One AudioMetadata row; `mapping` (the YouTube id it extends) is its primary key. */
  datatype MetadataRow = MetadataRow(
    mapping: string,
    title: string,
    author: Option<string>,
    album: Option<string>,
    trackNumber: int,
    firstReleaseDate: Option<Date>,
    fileSize: int,
    duration: int)

  /** The two tables of the audio database, in table order. */
  datatype CacheTables = CacheTables(files: seq<Mapping>, metadata: seq<MetadataRow>)

  /** The keyword arguments the cache operations are called with. */
  datatype Attributes = Attributes(
    youtubeId: Field<string>,
    telegramFileId: Field<string>,
    title: Field<string>,
    author: Field<string>,
    album: Field<string>,
    trackNumber: Field<int>,
    firstReleaseDate: Field<Date>,
    fileSize: Field<int>,
    duration: Field<int>)

  /** The primary keys are unique and every metadata row extends a stored mapping. */
  predicate Valid(c: CacheTables) {
    (forall i, j :: 0 <= i < j < |c.files| ==> c.files[i].youtubeId != c.files[j].youtubeId)
    && (forall i, j :: 0 <= i < j < |c.metadata| ==> c.metadata[i].mapping != c.metadata[j].mapping)
    && (forall m :: 0 <= m < |c.metadata| ==> exists i :: 0 <= i < |c.files| && c.files[i].youtubeId == c.metadata[m].mapping)
  }

  /** The WHERE clause `youtube_id == y | telegram_file_id == f`; a None side
      compiles to IS NULL, which no stored (NOT NULL) row satisfies. */
  predicate EntryMatches(e: Mapping, youtubeId: Option<string>, fileId: Option<string>)
    ensures youtubeId.None? && fileId.None? ==> !EntryMatches(e, youtubeId, fileId)
  {
    youtubeId == Some(e.youtubeId) || fileId == Some(e.telegramFileId)
  }

  /** `select().where(predicate).get()`: the first matching mapping. */
  function FirstEntry(files: seq<Mapping>, youtubeId: Option<string>, fileId: Option<string>): (r: Option<nat>)
    ensures r.Some? ==> r.value < |files| && EntryMatches(files[r.value], youtubeId, fileId)
    ensures r.Some? ==> forall j :: 0 <= j < r.value ==> !EntryMatches(files[j], youtubeId, fileId)
    ensures r.None? <==> forall j :: 0 <= j < |files| ==> !EntryMatches(files[j], youtubeId, fileId)
  {
    if |files| == 0 then None
    else if EntryMatches(files[0], youtubeId, fileId) then Some(0)
    else match FirstEntry(files[1..], youtubeId, fileId)
      case None => None
      case Some(k) => Some(k + 1)
  }

  /** The metadata query joined on the entry: the first row extending `youtubeId`. */
  function MetadataOf(metadata: seq<MetadataRow>, youtubeId: string): (r: Option<nat>)
    ensures r.Some? ==> r.value < |metadata| && metadata[r.value].mapping == youtubeId
    ensures r.None? <==> forall m :: 0 <= m < |metadata| ==> metadata[m].mapping != youtubeId
  {
    if |metadata| == 0 then None
    else if metadata[0].mapping == youtubeId then Some(0)
    else match MetadataOf(metadata[1..], youtubeId)
      case None => None
      case Some(k) => Some(k + 1)
  }

  /** The three answers of `search_by_youtube_or_telegram_file`:
      `(None, None)`, `(entry, None)` and `(entry, metadata)`. */
  datatype Found = Miss | EntryOnly(entry: nat) | EntryWithMetadata(entry: nat, meta: nat)

  /** `search_by_youtube_or_telegram_file`: refuses when both ids are None,
      else the first matching mapping and, if any, its metadata. */
  function Search(c: CacheTables, youtubeId: Option<string>, fileId: Option<string>): (r: Result<Found>)
    ensures r.Err? <==> youtubeId.None? && fileId.None?
    ensures r.Err? ==> r.error == InvalidKey
    ensures r.Ok? ==> (r.value.Miss? <==> forall i :: 0 <= i < |c.files| ==> !EntryMatches(c.files[i], youtubeId, fileId))
    ensures r.Ok? && !r.value.Miss? ==> FirstEntry(c.files, youtubeId, fileId) == Some(r.value.entry)
    ensures r.Ok? && r.value.EntryOnly? ==>
      forall m :: 0 <= m < |c.metadata| ==> c.metadata[m].mapping != c.files[r.value.entry].youtubeId
    ensures r.Ok? && r.value.EntryWithMetadata? ==>
      r.value.meta < |c.metadata| && c.metadata[r.value.meta].mapping == c.files[r.value.entry].youtubeId
  {
    if youtubeId.None? && fileId.None? then Err(InvalidKey)
    else match FirstEntry(c.files, youtubeId, fileId)
      case None => Ok(Miss)
      case Some(i) =>
        match MetadataOf(c.metadata, c.files[i].youtubeId)
        case None => Ok(EntryOnly(i))
        case Some(m) => Ok(EntryWithMetadata(i, m))
  }

  /** The search the cache operations run on their own keyword arguments. */
  function SearchFor(c: CacheTables, attrs: Attributes): (r: Result<Found>)
    ensures r.Err? <==> !attrs.youtubeId.Given? && !attrs.telegramFileId.Given?
    ensures r.Ok? ==> (r.value.Miss? <==>
              forall i :: 0 <= i < |c.files| ==>
                attrs.youtubeId != Given(c.files[i].youtubeId) && attrs.telegramFileId != Given(c.files[i].telegramFileId))
    ensures r.Ok? && !r.value.Miss? ==>
              && r.value.entry < |c.files|
              && (attrs.youtubeId == Given(c.files[r.value.entry].youtubeId)
                  || attrs.telegramFileId == Given(c.files[r.value.entry].telegramFileId))
  {
    Search(c, Get(attrs.youtubeId, None), Get(attrs.telegramFileId, None))
  }

  /** A stored mapping already uses this YouTube id. */
  predicate HasYoutubeId(files: seq<Mapping>, youtubeId: string) {
    exists i :: 0 <= i < |files| && files[i].youtubeId == youtubeId
  }

  /** `__add_youtube_telegram_file`: both ids are required, the new mapping
      counts one download, and the primary key refuses a second row for a
      YouTube id. */
  function AddMapping(c: CacheTables, attrs: Attributes): (res: (Result<nat>, CacheTables))
    ensures (Get(attrs.youtubeId, None).None? || Get(attrs.telegramFileId, None).None?) ==> res == (Err(CannotAddEntry), c)
    ensures res.0.Ok? <==> Get(attrs.youtubeId, None).Some? && Get(attrs.telegramFileId, None).Some?
                           && !HasYoutubeId(c.files, Get(attrs.youtubeId, None).value)
    ensures res.0.Ok? ==> res.0.value == |c.files| && res.1 == c.(files := c.files +
      [Mapping(Get(attrs.youtubeId, None).value, Get(attrs.telegramFileId, None).value, 1)])
    ensures res.0.Err? ==> res.1 == c
    ensures res.0.Err? ==> res.0.error in {CannotAddEntry, IntegrityError}
  {
    var y := Get(attrs.youtubeId, None);
    var f := Get(attrs.telegramFileId, None);
    if y.None? || f.None? then (Err(CannotAddEntry), c)
    else if HasYoutubeId(c.files, y.value) then (Err(IntegrityError), c)
    else (Ok(|c.files|), c.(files := c.files + [Mapping(y.value, f.value, 1)]))
  }

  /** The row `AudioMetadata.create` writes for a given title, or None when a
      NOT NULL column (track number, file size, duration) was passed None. */
  function NewMetadata(mapping: string, title: string, attrs: Attributes): (r: Option<MetadataRow>)
    ensures r.Some? <==> !attrs.trackNumber.Null? && !attrs.fileSize.Null? && !attrs.duration.Null?
    ensures r.Some? ==> r.value.mapping == mapping && r.value.title == title
    ensures r.Some? ==> r.value.author == Get(attrs.author, None) && r.value.album == Get(attrs.album, None)
    ensures r.Some? ==> r.value.firstReleaseDate == Get(attrs.firstReleaseDate, None)
    ensures r.Some? ==> Some(r.value.trackNumber) == Get(attrs.trackNumber, Some(0))
    ensures r.Some? ==> Some(r.value.fileSize) == Get(attrs.fileSize, Some(0))
    ensures r.Some? ==> Some(r.value.duration) == Get(attrs.duration, Some(0))
  {
    var track := Get(attrs.trackNumber, Some(0));
    var size := Get(attrs.fileSize, Some(0));
    var duration := Get(attrs.duration, Some(0));
    if track.None? || size.None? || duration.None? then None
    else Some(MetadataRow(mapping, title, Get(attrs.author, None), Get(attrs.album, None),
                          track.value, Get(attrs.firstReleaseDate, None), size.value, duration.value))
  }

  /** `__add_metadata_to_entry`: reads `attributes['youtube_id']` first, refuses
      a missing title, and inserts one metadata row for the entry unless a
      constraint refuses it. */
  function AddMetadata(c: CacheTables, entry: nat, attrs: Attributes): (res: (Outcome, CacheTables))
    requires entry < |c.files|
    ensures attrs.youtubeId.Absent? ==> res == (Fail(KeyError), c)
    ensures !attrs.youtubeId.Absent? && Get(attrs.title, None).None? ==>
      res == (Fail(if attrs.youtubeId.Null? then TypeError else TitleMissing), c)
    ensures res.0.Fail? ==> res.1 == c
    ensures res.0.Pass? <==> !attrs.youtubeId.Absent? && attrs.title.Given?
                             && NewMetadata(c.files[entry].youtubeId, attrs.title.value, attrs).Some?
                             && MetadataOf(c.metadata, c.files[entry].youtubeId).None?
    ensures res.0.Pass? ==>
      res.1 == c.(metadata := c.metadata + [NewMetadata(c.files[entry].youtubeId, attrs.title.value, attrs).value])
  {
    if attrs.youtubeId.Absent? then (Fail(KeyError), c)
    else
      var title := Get(attrs.title, None);
      if title.None? then (Fail(if attrs.youtubeId.Null? then TypeError else TitleMissing), c)
      else match NewMetadata(c.files[entry].youtubeId, title.value, attrs)
        case None => (Fail(IntegrityError), c)
        case Some(row) =>
          if MetadataOf(c.metadata, row.mapping).Some? then (Fail(IntegrityError), c)
          else (Pass, c.(metadata := c.metadata + [row]))
  }

  /** The message `CannotAddEntryException` is re-raised with: reading
      `attributes['title']` for it fails when no title was passed. */
  function Reraised(e: Error, attrs: Attributes): (r: Error)
    ensures e == CannotAddEntry && attrs.title.Absent? ==> r == KeyError
    ensures !(e == CannotAddEntry && attrs.title.Absent?) ==> r == e
  {
    if e == CannotAddEntry && attrs.title.Absent? then KeyError else e
  }

  /** `add_youtube_telegram_file_entry_and_metadata`: search, add the mapping
      when none was found, then add the metadata when the entry has none.
      The two inserts are separate statements: a mapping stays when its
      metadata is refused. */
  function AddEntryAndMetadata(c: CacheTables, attrs: Attributes): (res: (Outcome, CacheTables))
    // rows are only added, at most one mapping and one metadata row
    ensures c.files <= res.1.files && |res.1.files| <= |c.files| + 1
    ensures c.metadata <= res.1.metadata && |res.1.metadata| <= |c.metadata| + 1
    // a stored entry with metadata is left exactly as it is
    ensures SearchFor(c, attrs).Ok? && SearchFor(c, attrs).value.EntryWithMetadata? ==> res == (Pass, c)
  {
    match SearchFor(c, attrs)
    case Err(e) => (Fail(e), c)
    case Ok(EntryWithMetadata(_, _)) => (Pass, c)
    case Ok(EntryOnly(i)) => AddMetadata(c, i, attrs)
    case Ok(Miss) =>
      var added := AddMapping(c, attrs);
      if added.0.Err? then (Fail(Reraised(added.0.error, attrs)), added.1)
      else AddMetadata(added.1, added.0.value, attrs)
  }

  /** Appending a mapping whose YouTube id is new keeps the table valid. */
  lemma AddMappingKeepsValid(c: CacheTables, attrs: Attributes)
    requires Valid(c)
    ensures Valid(AddMapping(c, attrs).1)
  {
    var res := AddMapping(c, attrs);
    if res.0.Ok? {
      var y := Get(attrs.youtubeId, None).value;
      var files := c.files + [Mapping(y, Get(attrs.telegramFileId, None).value, 1)];
      assert res.1 == c.(files := files);
      forall i, j | 0 <= i < j < |files|
        ensures files[i].youtubeId != files[j].youtubeId
      {
        assert files[i] == c.files[i];
        if j == |c.files| {
          assert files[j].youtubeId == y && !HasYoutubeId(c.files, y);
        } else {
          assert files[j] == c.files[j];
        }
      }
      forall m | 0 <= m < |c.metadata|
        ensures exists i :: 0 <= i < |files| && files[i].youtubeId == c.metadata[m].mapping
      {
        var i :| 0 <= i < |c.files| && c.files[i].youtubeId == c.metadata[m].mapping;
        assert files[i] == c.files[i];
      }
      var d := c.(files := files);
      assert d.metadata == c.metadata && d.files == files;
      assert forall i, j :: 0 <= i < j < |d.files| ==> d.files[i].youtubeId != d.files[j].youtubeId;
      assert forall i, j :: 0 <= i < j < |d.metadata| ==> d.metadata[i].mapping != d.metadata[j].mapping;
      assert forall m :: 0 <= m < |d.metadata| ==> exists i :: 0 <= i < |d.files| && d.files[i].youtubeId == d.metadata[m].mapping;
      assert Valid(d);
    }
  }

  /** Appending metadata for a stored entry that has none keeps the table valid. */
  lemma AddMetadataKeepsValid(c: CacheTables, entry: nat, attrs: Attributes)
    requires Valid(c) && entry < |c.files|
    ensures Valid(AddMetadata(c, entry, attrs).1)
  {
    var res := AddMetadata(c, entry, attrs);
    if res.0.Pass? {
      var md := res.1.metadata;
      assert md[|c.metadata|].mapping == c.files[entry].youtubeId;
      forall m | 0 <= m < |md|
        ensures exists i :: 0 <= i < |c.files| && c.files[i].youtubeId == md[m].mapping
      {
        if m == |c.metadata| {
          assert c.files[entry].youtubeId == md[m].mapping;
        } else {
          assert md[m] == c.metadata[m];
        }
      }
    }
  }

  /** What the composite insert does, case by case: an entry that is found
      keeps the mapping table as it is, only a miss with both ids given adds
      a mapping (counting one download), at most one metadata row is added,
      the primary keys can only be violated by a NOT NULL column passed
      None, and the tables stay valid. */
  lemma AddEntryAndMetadataOutcome(c: CacheTables, attrs: Attributes)
    requires Valid(c)
    ensures var res := AddEntryAndMetadata(c, attrs);
      var y := Get(attrs.youtubeId, None);
      var f := Get(attrs.telegramFileId, None);
      && Valid(res.1)
      && (SearchFor(c, attrs).Err? ==> res == (Fail(InvalidKey), c))
      && (SearchFor(c, attrs).Ok? && !SearchFor(c, attrs).value.Miss? ==> res.1.files == c.files)
      && (SearchFor(c, attrs) == Ok(Miss) && y.Some? && f.Some? ==>
            res.1.files == c.files + [Mapping(y.value, f.value, 1)])
      && (SearchFor(c, attrs) == Ok(Miss) && (y.None? || f.None?) ==>
            res == (Fail(if attrs.title.Absent? then KeyError else CannotAddEntry), c))
      && (res.1.metadata == c.metadata || |res.1.metadata| == |c.metadata| + 1)
      && (res.0 == Fail(IntegrityError) ==> attrs.trackNumber.Null? || attrs.fileSize.Null? || attrs.duration.Null?)
  {
    var y := Get(attrs.youtubeId, None);
    var f := Get(attrs.telegramFileId, None);
    match SearchFor(c, attrs)
    case Err(_) =>
    case Ok(EntryWithMetadata(_, _)) =>
    case Ok(EntryOnly(i)) =>
      AddMetadataKeepsValid(c, i, attrs);
    case Ok(Miss) =>
      var added := AddMapping(c, attrs);
      AddMappingKeepsValid(c, attrs);
      if added.0.Ok? {
        var c1 := added.1;
        forall m | 0 <= m < |c1.metadata|
          ensures c1.metadata[m].mapping != c1.files[added.0.value].youtubeId
        {
          var i :| 0 <= i < |c.files| && c.files[i].youtubeId == c.metadata[m].mapping;
          assert !EntryMatches(c.files[i], y, f);
        }
        AddMetadataKeepsValid(c1, added.0.value, attrs);
      }
  }

  /** After a successful composite insert the same search finds an entry with metadata. */
  lemma AddEntryAndMetadataThenSearch(c: CacheTables, attrs: Attributes)
    requires Valid(c)
    requires AddEntryAndMetadata(c, attrs).0.Pass?
    ensures SearchFor(AddEntryAndMetadata(c, attrs).1, attrs).Ok?
    ensures SearchFor(AddEntryAndMetadata(c, attrs).1, attrs).value.EntryWithMetadata?
  {
    match SearchFor(c, attrs)
    case Err(_) =>
    case Ok(EntryWithMetadata(_, _)) =>
    case Ok(EntryOnly(i)) => MetadataAddedToEntry(c, attrs, i);
    case Ok(Miss) => EntryAndMetadataAdded(c, attrs);
  }

  /** An entry found without metadata gets its metadata row, and the search finds both. */
  lemma MetadataAddedToEntry(c: CacheTables, attrs: Attributes, i: nat)
    requires Valid(c) && SearchFor(c, attrs) == Ok(EntryOnly(i))
    requires AddEntryAndMetadata(c, attrs).0.Pass?
    ensures SearchFor(AddEntryAndMetadata(c, attrs).1, attrs).Ok?
    ensures SearchFor(AddEntryAndMetadata(c, attrs).1, attrs).value.EntryWithMetadata?
  {
    var y := Get(attrs.youtubeId, None);
    var f := Get(attrs.telegramFileId, None);
    var c1 := AddEntryAndMetadata(c, attrs).1;
    assert c1.files == c.files;
    var row := c1.metadata[|c.metadata|];
    assert row.mapping == c.files[i].youtubeId;
    assert FirstEntry(c1.files, y, f) == Some(i);
  }

  /** A missing entry is appended with its metadata row, and the search finds both. */
  lemma EntryAndMetadataAdded(c: CacheTables, attrs: Attributes)
    requires Valid(c) && SearchFor(c, attrs) == Ok(Miss)
    requires AddEntryAndMetadata(c, attrs).0.Pass?
    ensures SearchFor(AddEntryAndMetadata(c, attrs).1, attrs).Ok?
    ensures SearchFor(AddEntryAndMetadata(c, attrs).1, attrs).value.EntryWithMetadata?
  {
    var y := Get(attrs.youtubeId, None);
    var f := Get(attrs.telegramFileId, None);
    var c1 := AddEntryAndMetadata(c, attrs).1;
    assert c1.files == c.files + [Mapping(y.value, f.value, 1)];
    assert c1.metadata[|c.metadata|].mapping == y.value;
    FirstEntryAppended(c.files, Mapping(y.value, f.value, 1), y, f);
  }

  /** A mapping appended after rows none of which match is the first match. */
  lemma FirstEntryAppended(files: seq<Mapping>, m: Mapping, youtubeId: Option<string>, fileId: Option<string>)
    requires forall k :: 0 <= k < |files| ==> !EntryMatches(files[k], youtubeId, fileId)
    requires EntryMatches(m, youtubeId, fileId)
    ensures FirstEntry(files + [m], youtubeId, fileId) == Some(|files|)
  {
    var s := files + [m];
    assert s[|files|] == m;
    forall k | 0 <= k < |files|
      ensures !EntryMatches(s[k], youtubeId, fileId)
    {
      assert s[k] == files[k];
    }
  }

  /** Inserting again under a YouTube id that is already stored, whatever
      the file id, adds no mapping: the first Telegram file id stays. */
  lemma RepeatKeepsFirstFileId(c: CacheTables, attrs: Attributes, i: nat)
    requires Valid(c)
    requires i < |c.files| && attrs.youtubeId == Given(c.files[i].youtubeId)
    ensures AddEntryAndMetadata(c, attrs).1.files == c.files
    ensures AddEntryAndMetadata(c, attrs).1.files[i].telegramFileId == c.files[i].telegramFileId
  {
    assert EntryMatches(c.files[i], Get(attrs.youtubeId, None), Get(attrs.telegramFileId, None));
    AddEntryAndMetadataOutcome(c, attrs);
  }

  /** An insert whose Telegram file id already belongs to a stored entry
      finds an entry and adds no mapping. */
  lemma SharedFileIdAddsNoMapping(c: CacheTables, attrs: Attributes, i: nat)
    requires Valid(c)
    requires i < |c.files| && attrs.telegramFileId == Given(c.files[i].telegramFileId)
    ensures SearchFor(c, attrs).Ok? && !SearchFor(c, attrs).value.Miss?
    ensures SearchFor(c, attrs).value.entry <= i
    ensures AddEntryAndMetadata(c, attrs).1.files == c.files
  {
    assert EntryMatches(c.files[i], Get(attrs.youtubeId, None), Get(attrs.telegramFileId, None));
    AddEntryAndMetadataOutcome(c, attrs);
  }

  /** Attributes for a song with both ids and a title, no author, album or date, and zero size and duration. */
  function SongAttributes(youtubeId: string, fileId: string, title: string): (a: Attributes)
    ensures a.youtubeId == Given(youtubeId) && a.telegramFileId == Given(fileId) && a.title == Given(title)
  {
    Attributes(Given(youtubeId), Given(fileId), Given(title), Null, Null, Given(0), Null, Given(0), Given(0))
  }

  /** On an empty cache, storing "abc123" as "file-xyz" with title "Song"
      makes the search by YouTube id find that entry, counting one download,
      with its metadata. */
  lemma FirstDownloadIsCached()
    ensures var res := AddEntryAndMetadata(CacheTables([], []), SongAttributes("abc123", "file-xyz", "Song"));
      && res.0 == Pass
      && res.1.files == [Mapping("abc123", "file-xyz", 1)]
      && Search(res.1, Some("abc123"), None) == Ok(EntryWithMetadata(0, 0))
      && res.1.metadata[0].title == "Song"
  {
    var attrs := SongAttributes("abc123", "file-xyz", "Song");
    var c := CacheTables([], []);
    assert SearchFor(c, attrs) == Ok(Miss);
    var res := AddEntryAndMetadata(c, attrs);
    assert res.1.files == [Mapping("abc123", "file-xyz", 1)];
    assert res.1.metadata == [MetadataRow("abc123", "Song", None, None, 0, None, 0, 0)];
  }

  /** A cache hit: the found mapping counts one more download; its file id
      and every other row stay as they were. */
  function Hit(c: CacheTables, i: nat): (h: CacheTables)
    requires i < |c.files|
    ensures |h.files| == |c.files| && h.metadata == c.metadata
    ensures h.files[i].downloadedTimes == c.files[i].downloadedTimes + 1
    ensures h.files[i].youtubeId == c.files[i].youtubeId && h.files[i].telegramFileId == c.files[i].telegramFileId
    ensures forall j :: 0 <= j < |c.files| && j != i ==> h.files[j] == c.files[j]
  {
    c.(files := c.files[i := c.files[i].(downloadedTimes := c.files[i].downloadedTimes + 1)])
  }

  /** A hit changes no key, so it keeps the tables valid and every search answer. */
  lemma HitKeepsValid(c: CacheTables, i: nat)
    requires Valid(c) && i < |c.files|
    ensures Valid(Hit(c, i))
  {
    var h := Hit(c, i);
    forall m | 0 <= m < |h.metadata|
      ensures exists j :: 0 <= j < |h.files| && h.files[j].youtubeId == h.metadata[m].mapping
    {
      var j :| 0 <= j < |c.files| && c.files[j].youtubeId == c.metadata[m].mapping;
      assert h.files[j].youtubeId == c.files[j].youtubeId;
    }
  }

  /** A hit leaves every search answer as it was. */
  lemma {:induction false} HitKeepsSearch(c: CacheTables, i: nat, youtubeId: Option<string>, fileId: Option<string>)
    requires i < |c.files|
    ensures Search(Hit(c, i), youtubeId, fileId) == Search(c, youtubeId, fileId)
  {
    var h := Hit(c, i);
    FirstEntrySameIds(c.files, i, h.files[i], youtubeId, fileId);
    assert h.files == c.files[i := h.files[i]];
  }

  /** Replacing a mapping by one with the same two ids cannot change which one is found first. */
  lemma FirstEntrySameIds(files: seq<Mapping>, i: nat, e: Mapping, youtubeId: Option<string>, fileId: Option<string>)
    requires i < |files|
    requires e.youtubeId == files[i].youtubeId && e.telegramFileId == files[i].telegramFileId
    ensures FirstEntry(files[i := e], youtubeId, fileId) == FirstEntry(files, youtubeId, fileId)
  {
    var updated := files[i := e];
    forall j | 0 <= j < |files|
      ensures EntryMatches(updated[j], youtubeId, fileId) == EntryMatches(files[j], youtubeId, fileId)
    {
    }
    var a, b := FirstEntry(updated, youtubeId, fileId), FirstEntry(files, youtubeId, fileId);
    assert a.None? <==> b.None?;
    if a.Some? {
      assert !(a.value < b.value) && !(b.value < a.value);
    }
  }
}
