/** The audio database as the bot holds it: the YoutubeToTelegramFile and
    AudioMetadata tables of yt2audiobot/models/audiodbmanager.py, changed in
    place by the controller's insert methods and by the bot's hit counter.
    Each operation is tied to its value-level definition in AudioCache. */
module AudioStore {
  import opened Common
  import opened AudioCache

  /** The audio database, whose tables the cache operations change in place. */
  class AudioDb {
    var files: seq<Mapping>
    var metadata: seq<MetadataRow>

    /** Both tables as one value. */
    function Tables(): CacheTables
      reads this
    {
      CacheTables(files, metadata)
    }

    /** `create_tables` on a new database file. */
    constructor ()
      ensures files == [] && metadata == []
      ensures Valid(Tables())
    {
      files := [];
      metadata := [];
    }

    /** `__add_youtube_telegram_file`. */
    method AddMapping(attrs: Attributes) returns (r: Result<nat>)
      requires Valid(Tables())
      modifies this
      ensures (r, Tables()) == AudioCache.AddMapping(old(Tables()), attrs)
      ensures Valid(Tables())
    {
      AddMappingKeepsValid(Tables(), attrs);
      var y := Get(attrs.youtubeId, None);
      if y.None? {
        return Err(CannotAddEntry);
      }
      var f := Get(attrs.telegramFileId, None);
      if f.None? {
        return Err(CannotAddEntry);
      }
      if exists i :: 0 <= i < |files| && files[i].youtubeId == y.value {
        return Err(IntegrityError);
      }
      r := Ok(|files|);
      files := files + [Mapping(y.value, f.value, 1)];
    }

    /** `__add_metadata_to_entry`. */
    method AddMetadata(entry: nat, attrs: Attributes) returns (o: Outcome)
      requires Valid(Tables()) && entry < |files|
      modifies this
      ensures (o, Tables()) == AudioCache.AddMetadata(old(Tables()), entry, attrs)
      ensures Valid(Tables())
    {
      AddMetadataKeepsValid(Tables(), entry, attrs);
      if attrs.youtubeId.Absent? {
        return Fail(KeyError);
      }
      var title := Get(attrs.title, None);
      if title.None? {
        return Fail(if attrs.youtubeId.Null? then TypeError else TitleMissing);
      }
      var row := NewMetadata(files[entry].youtubeId, title.value, attrs);
      if row.None? || MetadataOf(metadata, row.value.mapping).Some? {
        return Fail(IntegrityError);
      }
      metadata := metadata + [row.value];
      o := Pass;
    }

    /** `add_youtube_telegram_file_entry_and_metadata`. */
    method AddEntryAndMetadata(attrs: Attributes) returns (o: Outcome)
      requires Valid(Tables())
      modifies this
      ensures (o, Tables()) == AudioCache.AddEntryAndMetadata(old(Tables()), attrs)
      ensures Valid(Tables())
    {
      AddEntryAndMetadataOutcome(Tables(), attrs);
      var found := SearchFor(Tables(), attrs);
      if found.Err? {
        return Fail(found.error);
      }
      var entry: nat;
      if found.value.Miss? {
        var added := AddMapping(attrs);
        if added.Err? {
          return Fail(Reraised(added.error, attrs));
        }
        entry := added.value;
      } else if found.value.EntryOnly? {
        entry := found.value.entry;
      } else {
        return Pass;
      }
      o := AddMetadata(entry, attrs);
    }

    /** `downloaded_times += 1` and `save()` on the mapping a search found. */
    method RecordHit(i: nat)
      requires Valid(Tables()) && i < |files|
      modifies this
      ensures Tables() == Hit(old(Tables()), i)
      ensures Valid(Tables())
    {
      HitKeepsValid(Tables(), i);
      var e := files[i];
      e := e.(downloadedTimes := e.downloadedTimes + 1);
      files := files[i := e];
    }
  }
}
