/** The cache bookkeeping of `handle_youtube_link` in yt2audiobot.py: for
    each video of a link, a YouTube id already in the cache is answered
    with the stored Telegram file (and counts one more download); any
    other is downloaded, uploaded, and its file id and metadata are stored.
    What youtube-dl and the Telegram upload produce is an input here. */
module Downloads {
  import opened Common
  import opened AudioCache
  import opened AudioStore
  import opened Metadata

  /** The attributes of the audio message Telegram returns for an upload. */
  datatype Upload = Upload(fileId: string, fileSize: Option<int>, duration: Option<int>)

  /** What `download_video_and_extract_audio` and `send_audio` yield for a
      video: a DownloadError, a FileIsTooLargeException, the error that
      escaped `metadata_from_title` after the download (an `Err` of
      `Metadata.MetadataFor`), or the song's metadata and the uploaded audio. */
  datatype Download =
    | DownloadFailed
    | FileTooLarge
    | MetadataRaised(error: Error)
    | Downloaded(song: SongMetadata, upload: Upload)

  /** One video of the link, with the download it would yield. */
  datatype Video = Video(youtubeId: string, download: Download)

  /** The `data` dict the bot hands to `add_youtube_telegram_file_entry_and_metadata`:
      the song's metadata, the YouTube id, and the uploaded file's id, size and duration. */
  function UploadAttributes(youtubeId: string, song: SongMetadata, upload: Upload): (a: Attributes)
    ensures a.youtubeId == Given(youtubeId) && a.telegramFileId == Given(upload.fileId)
    ensures Get(a.title, None) == song.title && Get(a.author, None) == song.author && Get(a.album, None) == song.album
    ensures a.trackNumber == Given(song.trackNumber) && Get(a.firstReleaseDate, None) == song.firstReleaseDate
    ensures Get(a.fileSize, None) == upload.fileSize && Get(a.duration, None) == upload.duration
    ensures !a.title.Absent? && !a.fileSize.Absent? && !a.duration.Absent?
  {
    Attributes(Given(youtubeId), Given(upload.fileId), FieldOf(song.title), FieldOf(song.author),
               FieldOf(song.album), Given(song.trackNumber), FieldOf(song.firstReleaseDate),
               FieldOf(upload.fileSize), FieldOf(upload.duration))
  }

  /** One turn of the loop over `manage_url()`: the outcome, the Telegram
      file ids sent to the chat as audio, and the cache afterwards. Any
      mapping found counts as a hit, with or without metadata. Download
      errors are reported and write nothing; an error of the metadata
      search escapes with nothing sent or written; naming the file formats the
      song's metadata before the upload, so an untitled song's TypeError
      escapes with nothing sent or written; an error of the insert escapes
      after the audio was sent. */
  function Step(c: CacheTables, v: Video): (res: (Outcome, seq<string>, CacheTables))
    // at most one audio is sent, and a turn that sends nothing writes nothing
    ensures |res.1| <= 1
    ensures res.1 == [] ==> res.2 == c
    // no mapping is removed
    ensures |c.files| <= |res.2.files|
    // a cached video is answered with its stored file
    ensures forall i :: 0 <= i < |c.files| && c.files[i].youtubeId == v.youtubeId ==> res.0 == Pass && |res.1| == 1
  {
    match Search(c, Some(v.youtubeId), None)
    case Err(e) => (Fail(e), [], c)
    case Ok(Miss) =>
      if v.download.Downloaded? then
        match FilenameBase(v.download.song)
        case Err(e) => (Fail(e), [], c)
        case Ok(_) =>
          var stored := AddEntryAndMetadata(c, UploadAttributes(v.youtubeId, v.download.song, v.download.upload));
          (stored.0, [v.download.upload.fileId], stored.1)
      else if v.download.MetadataRaised? then (Fail(v.download.error), [], c)
      else (Pass, [], c)
    case Ok(found) => (Pass, [c.files[found.entry].telegramFileId], Hit(c, found.entry))
  }

  /** The whole loop: the steps in order, stopping at the first error. */
  function Deliver(c: CacheTables, videos: seq<Video>): (res: (Outcome, seq<string>, CacheTables))
    ensures |res.1| <= |videos|
    ensures |c.files| <= |res.2.files|
    decreases |videos|
  {
    if |videos| == 0 then (Pass, [], c)
    else
      var first := Step(c, videos[0]);
      if first.0.Fail? then first
      else Prepend(first.1, Deliver(first.2, videos[1..]))
  }

  /** Audio sent before the rest of the loop ran. */
  function Prepend(sent: seq<string>, res: (Outcome, seq<string>, CacheTables)): (r: (Outcome, seq<string>, CacheTables))
    ensures r.0 == res.0 && r.1 == sent + res.1 && r.2 == res.2
  {
    (res.0, sent + res.1, res.2)
  }

  lemma PrependPrepend(a: seq<string>, b: seq<string>, res: (Outcome, seq<string>, CacheTables))
    ensures Prepend(a, Prepend(b, res)) == Prepend(a + b, res)
  {
    assert a + (b + res.1) == (a + b) + res.1;
  }

  /** With unique YouTube ids, the entry holding `youtubeId` is the one a search by it finds. */
  lemma FoundByYoutubeId(c: CacheTables, i: nat)
    requires Valid(c) && i < |c.files|
    ensures FirstEntry(c.files, Some(c.files[i].youtubeId), None) == Some(i)
  {
    var y := Some(c.files[i].youtubeId);
    assert EntryMatches(c.files[i], y, None);
    var k := FirstEntry(c.files, y, None).value;
    assert k <= i;
    assert c.files[k].youtubeId == c.files[i].youtubeId;
  }

  /** A cached video is answered from the cache whatever its download would
      yield: the stored file id is sent, that mapping counts exactly one
      more download, and nothing else changes. */
  lemma HitReusesFileId(c: CacheTables, v: Video, i: nat)
    requires Valid(c) && i < |c.files| && c.files[i].youtubeId == v.youtubeId
    ensures var res := Step(c, v);
            && res.0 == Pass && res.1 == [c.files[i].telegramFileId]
            && res.2 == Hit(c, i)
            && res.2.files[i].downloadedTimes == c.files[i].downloadedTimes + 1
  {
    FoundByYoutubeId(c, i);
  }

  /** A video that is not cached and fails to download, or is too large,
      writes nothing and sends nothing. */
  lemma FailedDownloadWritesNothing(c: CacheTables, v: Video)
    requires forall i :: 0 <= i < |c.files| ==> c.files[i].youtubeId != v.youtubeId
    requires v.download.DownloadFailed? || v.download.FileTooLarge?
    ensures Step(c, v) == (Pass, [], c)
  {
  }

  /** A new video whose metadata search raised (a title word that is not a
      valid regular expression) is neither sent nor written, and the
      error ends the loop, whatever videos follow: neither
      `download_video_and_extract_audio` nor the loop catches it. */
  lemma MetadataErrorEscapes(c: CacheTables, v: Video, rest: seq<Video>)
    requires forall i :: 0 <= i < |c.files| ==> c.files[i].youtubeId != v.youtubeId
    requires v.download.MetadataRaised?
    ensures Step(c, v) == (Fail(v.download.error), [], c)
    ensures Deliver(c, [v] + rest) == (Fail(v.download.error), [], c)
  {
    assert ([v] + rest)[0] == v;
  }

  /** A new video whose song has no title raises TypeError while its file is
      named, before the upload: nothing is sent or written, and the loop
      stops there, whatever videos follow. */
  lemma UntitledDownloadEscapes(c: CacheTables, v: Video, rest: seq<Video>)
    requires forall i :: 0 <= i < |c.files| ==> c.files[i].youtubeId != v.youtubeId
    requires v.download.Downloaded? && v.download.song.title.None?
    ensures Step(c, v) == (Fail(TypeError), [], c)
    ensures Deliver(c, [v] + rest) == (Fail(TypeError), [], c)
  {
    assert ([v] + rest)[0] == v;
  }

  /** A new video whose upload has a new file id, a title, a size and a
      duration is cached: its mapping counts one download, its metadata is
      stored, and a later search by its YouTube id finds both. */
  lemma DownloadIsCached(c: CacheTables, y: string, song: SongMetadata, upload: Upload)
    requires Valid(c)
    requires forall i :: 0 <= i < |c.files| ==> c.files[i].youtubeId != y && c.files[i].telegramFileId != upload.fileId
    requires song.title.Some? && upload.fileSize.Some? && upload.duration.Some?
    ensures var res := Step(c, Video(y, Downloaded(song, upload)));
            && res.0 == Pass && res.1 == [upload.fileId]
            && res.2.files == c.files + [Mapping(y, upload.fileId, 1)]
            && |res.2.metadata| == |c.metadata| + 1
            && res.2.metadata[|c.metadata|] == MetadataRow(y, song.title.value, song.author, song.album,
                 song.trackNumber, song.firstReleaseDate, upload.fileSize.value, upload.duration.value)
            && Search(res.2, Some(y), None) == Ok(EntryWithMetadata(|c.files|, |c.metadata|))
  {
    NewVideoStep(c, y, song, upload);
    UploadStored(c, y, song, upload);
  }

  /** A video no mapping names, with a title, goes to the insert of its upload. */
  lemma NewVideoStep(c: CacheTables, y: string, song: SongMetadata, upload: Upload)
    requires forall i :: 0 <= i < |c.files| ==> c.files[i].youtubeId != y
    requires song.title.Some?
    ensures var stored := AddEntryAndMetadata(c, UploadAttributes(y, song, upload));
            Step(c, Video(y, Downloaded(song, upload))) == (stored.0, [upload.fileId], stored.1)
  {
    assert Search(c, Some(y), None) == Ok(Miss);
  }

  /** The insert of a new upload with a file id, a title, a size and a
      duration adds its mapping and its metadata row, and a search by its
      YouTube id finds both. */
  lemma UploadStored(c: CacheTables, y: string, song: SongMetadata, upload: Upload)
    requires Valid(c)
    requires forall i :: 0 <= i < |c.files| ==> c.files[i].youtubeId != y && c.files[i].telegramFileId != upload.fileId
    requires song.title.Some? && upload.fileSize.Some? && upload.duration.Some?
    ensures var res := AddEntryAndMetadata(c, UploadAttributes(y, song, upload));
            && res.0 == Pass
            && res.1.files == c.files + [Mapping(y, upload.fileId, 1)]
            && |res.1.metadata| == |c.metadata| + 1
            && res.1.metadata[|c.metadata|] == MetadataRow(y, song.title.value, song.author, song.album,
                 song.trackNumber, song.firstReleaseDate, upload.fileSize.value, upload.duration.value)
            && Search(res.1, Some(y), None) == Ok(EntryWithMetadata(|c.files|, |c.metadata|))
  {
    var attrs := UploadAttributes(y, song, upload);
    assert SearchFor(c, attrs) == Ok(Miss);
    var added := AddMapping(c, attrs);
    assert added.0 == Ok(|c.files|);
    var c1 := added.1;
    forall m | 0 <= m < |c1.metadata|
      ensures c1.metadata[m].mapping != y
    {
      var i :| 0 <= i < |c.files| && c.files[i].youtubeId == c.metadata[m].mapping;
    }
    var res := AddEntryAndMetadata(c, attrs);
    assert res == AddMetadata(c1, |c.files|, attrs);
    AddEntryAndMetadataOutcome(c, attrs);
    var c2 := res.1;
    FoundByYoutubeId(c2, |c.files|);
    assert MetadataOf(c2.metadata, y) == Some(|c.metadata|) by {
      assert c2.metadata == c.metadata + [c2.metadata[|c.metadata|]];
      MetadataOfAppend(c.metadata, c2.metadata[|c.metadata|], y);
    }
  }

  /** A metadata row appended for an id no earlier row extends is the one found. */
  lemma {:induction false} MetadataOfAppend(metadata: seq<MetadataRow>, row: MetadataRow, y: string)
    requires forall m :: 0 <= m < |metadata| ==> metadata[m].mapping != y
    requires row.mapping == y
    ensures MetadataOf(metadata + [row], y) == Some(|metadata|)
  {
    if |metadata| > 0 {
      assert (metadata + [row])[1..] == metadata[1..] + [row];
      MetadataOfAppend(metadata[1..], row, y);
    }
  }

  /** Every step keeps the cache valid. */
  lemma StepKeepsValid(c: CacheTables, v: Video)
    requires Valid(c)
    ensures Valid(Step(c, v).2)
  {
    match Search(c, Some(v.youtubeId), None)
    case Err(_) =>
    case Ok(Miss) =>
      if v.download.Downloaded? {
        AddEntryAndMetadataOutcome(c, UploadAttributes(v.youtubeId, v.download.song, v.download.upload));
      }
    case Ok(found) => HitKeepsValid(c, found.entry);
  }

  /** What the cache already holds survives a step: no mapping is removed
      or re-pointed to another file, and no download count goes down. */
  predicate Extends(c: CacheTables, d: CacheTables) {
    && |c.files| <= |d.files|
    && forall i :: 0 <= i < |c.files| ==>
         && d.files[i].youtubeId == c.files[i].youtubeId
         && d.files[i].telegramFileId == c.files[i].telegramFileId
         && d.files[i].downloadedTimes >= c.files[i].downloadedTimes
  }

  lemma StepExtends(c: CacheTables, v: Video)
    requires Valid(c)
    ensures Extends(c, Step(c, v).2)
  {
    match Search(c, Some(v.youtubeId), None)
    case Err(_) =>
    case Ok(Miss) =>
      if v.download.Downloaded? && FilenameBase(v.download.song).Ok? {
        var attrs := UploadAttributes(v.youtubeId, v.download.song, v.download.upload);
        AddEntryAndMetadataOutcome(c, attrs);
        var d := Step(c, v).2;
        assert d == AddEntryAndMetadata(c, attrs).1;
        assert d.files == c.files || d.files == c.files + [Mapping(v.youtubeId, v.download.upload.fileId, 1)];
      }
    case Ok(found) =>
  }

  /** The loop keeps the cache valid and only ever extends it, and sends at
      most one audio per video. */
  lemma {:induction false} DeliverKeepsCache(c: CacheTables, videos: seq<Video>)
    requires Valid(c)
    ensures var res := Deliver(c, videos);
            Valid(res.2) && Extends(c, res.2) && |res.1| <= |videos|
    decreases |videos|
  {
    if |videos| > 0 {
      var first := Step(c, videos[0]);
      StepKeepsValid(c, videos[0]);
      StepExtends(c, videos[0]);
      if first.0.Pass? {
        DeliverKeepsCache(first.2, videos[1..]);
      }
    }
  }

  /** A link to a new video and then a second link to it: the first is
      downloaded and cached, the second is answered with the same file
      without downloading, and the mapping counts two downloads. */
  lemma CachedVideoIsNotDownloadedAgain()
    ensures var song := SongMetadata(Some("Song"), None, None, 0, None);
            var first := Video("abc123", Downloaded(song, Upload("file-xyz", Some(4096), Some(180))));
            var again := Video("abc123", DownloadFailed);
            var res := Deliver(CacheTables([], []), [first, again]);
            && res.0 == Pass && res.1 == ["file-xyz", "file-xyz"]
            && res.2.files == [Mapping("abc123", "file-xyz", 2)]
  {
    CachedThenHit("abc123", SongMetadata(Some("Song"), None, None, 0, None), Upload("file-xyz", Some(4096), Some(180)),
                  Video("abc123", DownloadFailed));
  }

  /** The same for any titled upload into an empty cache, followed by any
      video with the same YouTube id. */
  lemma CachedThenHit(y: string, song: SongMetadata, upload: Upload, again: Video)
    requires song.title.Some? && upload.fileSize.Some? && upload.duration.Some? && again.youtubeId == y
    ensures var res := Deliver(CacheTables([], []), [Video(y, Downloaded(song, upload)), again]);
            && res.0 == Pass && res.1 == [upload.fileId, upload.fileId]
            && res.2.files == [Mapping(y, upload.fileId, 2)]
  {
    var first := Video(y, Downloaded(song, upload));
    var c0 := CacheTables([], []);
    DownloadIsCached(c0, y, song, upload);
    StepKeepsValid(c0, first);
    var c1 := Step(c0, first).2;
    assert c1.files == [Mapping(y, upload.fileId, 1)];
    SecondRequestHits(c1, again, upload.fileId);
    DeliverTwo(c0, first, again);
  }

  /** A video whose YouTube id is the only one cached, downloaded once, is
      answered with the stored file and counts two downloads. */
  lemma SecondRequestHits(c: CacheTables, v: Video, fileId: string)
    requires Valid(c) && c.files == [Mapping(v.youtubeId, fileId, 1)]
    ensures var res := Step(c, v);
            res.0 == Pass && res.1 == [fileId] && res.2.files == [Mapping(v.youtubeId, fileId, 2)]
  {
    HitReusesFileId(c, v, 0);
    var c2 := Step(c, v).2;
    assert c2.files[0] == Mapping(v.youtubeId, fileId, 2);
  }

  /** Two steps that both pass make the whole loop over two videos. */
  lemma DeliverTwo(c: CacheTables, v: Video, w: Video)
    requires Step(c, v).0 == Pass && Step(Step(c, v).2, w).0 == Pass
    ensures var s1 := Step(c, v);
            var s2 := Step(s1.2, w);
            Deliver(c, [v, w]) == (Pass, s1.1 + s2.1, s2.2)
  {
    var s1 := Step(c, v);
    var s2 := Step(s1.2, w);
    assert [w][1..] == [];
    assert s2.1 + [] == s2.1;
    assert Deliver(s1.2, [w]) == (Pass, s2.1, s2.2);
    assert [v, w][1..] == [w];
  }

  /** One turn of the loop body on the bot's database. */
  method Serve(db: AudioDb, v: Video) returns (o: Outcome, sent: seq<string>)
    requires Valid(db.Tables())
    modifies db
    ensures (o, sent, db.Tables()) == Step(old(db.Tables()), v)
    ensures Valid(db.Tables())
  {
    var found := Search(db.Tables(), Some(v.youtubeId), None);
    assert found.Ok?;
    if found.value.Miss? {
      if v.download.Downloaded? {
        var name := FilenameBase(v.download.song);
        if name.Err? {
          return Fail(name.error), [];
        }
        var upload := v.download.upload;
        sent := [upload.fileId];
        o := db.AddEntryAndMetadata(UploadAttributes(v.youtubeId, v.download.song, upload));
      } else if v.download.MetadataRaised? {
        o, sent := Fail(v.download.error), [];
      } else {
        o, sent := Pass, [];
      }
    } else {
      var i := found.value.entry;
      sent := [db.files[i].telegramFileId];
      db.RecordHit(i);
      o := Pass;
    }
  }

  /** `handle_youtube_link` after the link was resolved to its videos. */
  method HandleYoutubeLink(db: AudioDb, videos: seq<Video>) returns (o: Outcome, sent: seq<string>)
    requires Valid(db.Tables())
    modifies db
    ensures (o, sent, db.Tables()) == Deliver(old(db.Tables()), videos)
    ensures Valid(db.Tables())
  {
    sent := [];
    var k := 0;
    assert videos[k..] == videos;
    assert sent + Deliver(db.Tables(), videos).1 == Deliver(db.Tables(), videos).1;
    while k < |videos|
      invariant 0 <= k <= |videos|
      invariant Valid(db.Tables())
      invariant Deliver(old(db.Tables()), videos) == Prepend(sent, Deliver(db.Tables(), videos[k..]))
      decreases |videos| - k
    {
      ghost var before := db.Tables();
      assert videos[k..][0] == videos[k] && videos[k..][1..] == videos[k + 1..];
      var step, out := Serve(db, videos[k]);
      if step.Fail? {
        assert Deliver(before, videos[k..]) == (step, out, db.Tables());
        return step, sent + out;
      }
      assert Deliver(before, videos[k..]) == Prepend(out, Deliver(db.Tables(), videos[k + 1..]));
      PrependPrepend(sent, out, Deliver(db.Tables(), videos[k + 1..]));
      sent := sent + out;
      k := k + 1;
    }
    assert videos[k..] == [];
    assert sent + [] == sent;
    o := Pass;
  }
}
