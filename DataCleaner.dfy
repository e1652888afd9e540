/**
 * `DataCleaner.CleanAsync`: reconciles the local catalog with the data image
 * in three phases. Phase 1 cascade-deletes the ids listed in `invalid.json`,
 * phase 2 the committed batches whose zip is not on disk, phase 3 every batch
 * that is not committed. The directory tree under the data image path is a
 * set of relative paths (lists of segments); the database is a `Tables`
 * value.
 */
module DataCleaner {
  import opened Wrappers
  import opened Guids
  import opened Text
  import ConfigurationReader
  import opened Catalog
  import ContentImporter
  import Paging

  /** The parsed content of `invalid.json`. */
  datatype InvalidJson =
    | Null                      // the document is `null`
    | IdList(ids: seq<Guid>)    // a JSON array of GUID strings
    | NotAnIdList               // anything `JsonSerializer` refuses as `List<Guid>`

  /** `invalid.json` in the data image directory, if it exists. */
  datatype InvalidFile = NoInvalidFile | InvalidFile(content: InvalidJson)

  datatype CleanError =
    | Config(error: ConfigurationReader.ConfigError)
    | InvalidFileUnreadable     // JsonException from the deserializer
    | TooManyParameters(count: nat)   // SqlException: the server refuses the command

  /** The scan root `GetDownloadedBatchIds` uses: `bin/content`. */
  const ContentRootAsWritten: seq<string> := ["bin", "content"]

  /** The directory `ContentImporter` writes the zips under: `bin`. */
  const ContentRoot: seq<string> := ["bin"]

  /** `ReadInvalidIdsAsync`. */
  function ReadInvalidIds(f: InvalidFile): (r: Result<set<Guid>, CleanError>)
    ensures f.NoInvalidFile? || (f.InvalidFile? && f.content.Null?) ==> r == Ok({})
    ensures r.Err? <==> f.InvalidFile? && f.content.NotAnIdList?
    ensures r.Ok? ==> forall id :: id in r.value <==> f.InvalidFile? && f.content.IdList? && id in f.content.ids
  {
    match f
    case NoInvalidFile => Ok({})
    case InvalidFile(content) =>
      match content
      case Null => Ok({})
      case NotAnIdList => Err(InvalidFileUnreadable)
      case IdList(ids) => if |ids| > 0 then Ok(set k | 0 <= k < |ids| :: ids[k]) else Ok({})
  }

  /** Whether `name` ends in `.zip`. */
  predicate IsZipName(name: string)
  {
    |name| >= 4 && name[|name| - 4..] == ".zip"
  }

  /**
   * The id a file stands for: a `.zip` anywhere below `root` whose name
   * without the extension parses as a "D"-format GUID.
   */
  function ZipId(path: seq<string>, root: seq<string>): (r: Option<Guid>)
    ensures r.Some? <==>
      |path| > |root| && path[..|root|] == root && IsZipName(path[|path| - 1])
      && ParseD(path[|path| - 1][..|path[|path| - 1]| - 4]).Some?
  {
    if |path| > |root| && path[..|root|] == root && IsZipName(path[|path| - 1]) then
      var name := path[|path| - 1];
      ParseD(name[..|name| - 4])
    else None
  }

  /** Only names that are a "D"-format GUID, in either case, followed by `.zip` are taken. */
  lemma ZipIdIsFormatD(path: seq<string>, root: seq<string>)
    requires ZipId(path, root).Some?
    ensures ToLowerAscii(path[|path| - 1]) == FormatD(ZipId(path, root).value) + ".zip"
  {
    var name := path[|path| - 1];
    var stem := name[..|name| - 4];
    ParseDExactly(stem, ZipId(path, root).value);
    assert name == stem + ".zip";
    assert ToLowerAscii(name) == ToLowerAscii(stem) + ".zip";
  }

  /** The ids of the downloaded zips under `root`. */
  function DownloadedIds(listing: set<seq<string>>, root: seq<string>): (r: set<Guid>)
    ensures forall id :: id in r <==> exists p :: p in listing && ZipId(p, root) == Some(id)
  {
    set p | p in listing && ZipId(p, root).Some? :: ZipId(p, root).value
  }

  lemma DownloadedIdsAdd(done: set<seq<string>>, p: seq<string>, root: seq<string>)
    ensures DownloadedIds(done + {p}, root)
      == DownloadedIds(done, root) + (if ZipId(p, root).Some? then {ZipId(p, root).value} else {})
  {
  }

  /** `GetDownloadedBatchIds`: enumerates the files below `root` and collects the ids of the zips. */
  method GetDownloadedBatchIds(listing: set<seq<string>>, root: seq<string>) returns (ids: set<Guid>)
    ensures ids == DownloadedIds(listing, root)
  {
    ids := {};
    var remaining := listing;
    while remaining != {}
      invariant remaining <= listing
      invariant ids == DownloadedIds(listing - remaining, root)
      decreases |remaining|
    {
      var p :| p in remaining;
      DownloadedIdsAdd(listing - remaining, p, root);
      assert (listing - remaining) + {p} == listing - (remaining - {p});
      var id := ZipId(p, root);
      if id.Some? {
        ids := ids + {id.value};
      }
      remaining := remaining - {p};
    }
    assert listing - remaining == listing;
  }

  /** What `DeleteBatchAsync` reports: the probe's verdict and the rows of the cascade. */
  datatype DeleteBatchResult = DeleteBatchResult(tables: Tables, batchDeleted: bool, rowsAffected: int)

  /**
   * `DeleteBatchAsync`: the cascade for one id, then a second
   * `DELETE FROM [Batch]` for the same id whose row count is the
   * `BatchDeleted` flag. The cascade has already removed that row, so the
   * probe never finds one.
   */
  method DeleteBatch(t: Tables, id: Guid) returns (r: DeleteBatchResult)
    ensures r.tables == DeleteBatches(t, {id})
    ensures r.rowsAffected == CascadeRows(t, {id})
    ensures !r.batchDeleted
  {
    var cascaded := DeleteBatches(t, {id});
    var rowsAffected := CascadeRows(t, {id});
    var batchDeleted := id in cascaded.batch;
    DeleteBatchesRemovesAll(t, {id});
    assert cascaded.batch - {id} == cascaded.batch;
    var probed := cascaded.(batch := cascaded.batch - {id});
    r := DeleteBatchResult(probed, batchDeleted, rowsAffected);
  }

  /** The batches phase 2 deletes: committed, and not among the downloaded ids. */
  function CommittedNotDownloaded(t: Tables, downloaded: set<Guid>): set<Guid>
  {
    set id | id in t.batch && t.batch[id].status == Committed && id !in downloaded
  }

  /**
   * `DeleteCommittedBatchesNotDownloadedAsync`: with no downloaded ids it
   * runs the statements for every committed batch, otherwise the ones with
   * `NOT IN` the downloaded ids, passed as one SQL parameter each. The
   * server refuses a command with more than `parameterLimit` parameters
   * (2100 for SQL Server), and then nothing is deleted.
   */
  function DeleteCommittedBatchesNotDownloaded(t: Tables, downloaded: set<Guid>, parameterLimit: nat): (r: Result<Tables, CleanError>)
    ensures r.Err? <==> |downloaded| > parameterLimit
    ensures r.Err? ==> r.error == TooManyParameters(|downloaded|)
    ensures r.Ok? ==> r.value == DeleteBatches(t, CommittedNotDownloaded(t, downloaded))
    ensures r.Ok? ==> forall id :: id in r.value.batch <==> id in t.batch && (t.batch[id].status != Committed || id in downloaded)
  {
    if |downloaded| == 0 then
      var committed := set id | id in t.batch && t.batch[id].status == Committed;
      assert committed == CommittedNotDownloaded(t, downloaded);
      assert DeleteBatches(t, committed) == DeleteBatches(t, CommittedNotDownloaded(t, downloaded));
      Ok(DeleteBatches(t, committed))
    else if |downloaded| > parameterLimit then
      Err(TooManyParameters(|downloaded|))
    else
      Ok(DeleteBatches(t, CommittedNotDownloaded(t, downloaded)))
  }

  /** The batches phase 3 deletes: every batch that is not committed. */
  function NonCommitted(t: Tables): set<Guid>
  {
    set id | id in t.batch && t.batch[id].status != Committed
  }

  /** `DeleteNonCommittedBatchesAsync`. */
  function DeleteNonCommittedBatches(t: Tables): (r: Tables)
    ensures forall id :: id in r.batch <==> id in t.batch && t.batch[id].status == Committed
    ensures NoRowsOf(r, NonCommitted(t))
  {
    DeleteBatchesRemovesAll(t, NonCommitted(t));
    DeleteBatches(t, NonCommitted(t))
  }

  /** The three phases, one after the other. */
  function CleanTables(t: Tables, invalid: set<Guid>, downloaded: set<Guid>): Tables
  {
    var t1 := DeleteBatches(t, invalid);
    DeleteNonCommittedBatches(DeleteBatches(t1, CommittedNotDownloaded(t1, downloaded)))
  }

  /** The batches the three phases delete between them. */
  function Doomed(t: Tables, invalid: set<Guid>, downloaded: set<Guid>): set<Guid>
  {
    invalid + set id | id in t.batch && (t.batch[id].status != Committed || id !in downloaded)
  }

  /**
   * After the clean-up exactly the committed, downloaded, not invalid
   * batches remain, unchanged; no dependent row of a deleted batch is left;
   * and a catalog without orphans stays without orphans.
   */
  lemma CleanPostcondition(t: Tables, invalid: set<Guid>, downloaded: set<Guid>)
    ensures var r := CleanTables(t, invalid, downloaded);
      && (forall id :: id in r.batch <==>
            id in t.batch && t.batch[id].status == Committed && id in downloaded && id !in invalid)
      && (forall id :: id in r.batch ==> r.batch[id] == t.batch[id])
      && NoRowsOf(r, Doomed(t, invalid, downloaded))
      && (NoOrphans(t) ==> NoOrphans(r))
  {
    var t1 := DeleteBatches(t, invalid);
    var d2 := CommittedNotDownloaded(t1, downloaded);
    var t2 := DeleteBatches(t1, d2);
    var d3 := NonCommitted(t2);
    var r := DeleteBatches(t2, d3);
    assert r == CleanTables(t, invalid, downloaded);
    DeleteBatchesTwice(t, invalid, d2);
    DeleteBatchesTwice(t, invalid + d2, d3);
    var all := invalid + d2 + d3;
    assert r == DeleteBatches(t, all);
    assert Doomed(t, invalid, downloaded) * t.batch.Keys <= all by {
      forall id | id in Doomed(t, invalid, downloaded) && id in t.batch ensures id in all {
        if id !in invalid {
          assert id in t1.batch;
          if t.batch[id].status == Committed {
            assert id in d2;
          }
        }
      }
    }
    NoRowsOfDoomed(t, all, Doomed(t, invalid, downloaded));
    if NoOrphans(t) {
      DeleteBatchesKeepsNoOrphans(t, all);
    }
  }

  /**
   * Deleting `all` leaves no row of any id in `doomed`, when every doomed id
   * with a `Batch` row is in `all` and `all` holds every doomed id that is
   * not a batch.
   */
  lemma NoRowsOfDoomed(t: Tables, all: set<Guid>, doomed: set<Guid>)
    requires doomed * t.batch.Keys <= all
    requires doomed - t.batch.Keys <= all
    ensures NoRowsOf(DeleteBatches(t, all), doomed)
  {
    DeleteBatchesRemovesAll(t, all);
    assert doomed <= all;
  }

  /**
   * Tables holding only committed, downloaded batches and no row of
   * `invalid` are left alone by the clean-up, and none of its statements
   * matches a row.
   */
  lemma CleanFixesClean(r: Tables, invalid: set<Guid>, downloaded: set<Guid>)
    requires forall id :: id in r.batch ==> r.batch[id].status == Committed && id in downloaded
    requires NoRowsOf(r, invalid)
    ensures CleanTables(r, invalid, downloaded) == r
    ensures CascadeRows(r, invalid) == 0
    ensures CascadeRows(r, CommittedNotDownloaded(r, downloaded)) == 0
    ensures CascadeRows(r, NonCommitted(r)) == 0
  {
    DeleteAbsentBatches(r, invalid);
    NoRowsNoCascade(r, invalid);
    assert CommittedNotDownloaded(r, downloaded) == {};
    DeleteAbsentBatches(r, {});
    NoRowsNoCascade(r, {});
    assert NonCommitted(r) == {};
  }

  /**
   * A second clean-up over the same files on disk, with the same or a
   * smaller invalid list, leaves the catalog as it is.
   */
  lemma CleanIdempotent(t: Tables, invalid: set<Guid>, invalid2: set<Guid>, downloaded: set<Guid>)
    requires invalid2 <= invalid
    ensures var r := CleanTables(t, invalid, downloaded);
      && CleanTables(r, invalid2, downloaded) == r
      && CascadeRows(r, invalid2) == 0
      && CascadeRows(r, CommittedNotDownloaded(r, downloaded)) == 0
      && CascadeRows(r, NonCommitted(r)) == 0
  {
    var r := CleanTables(t, invalid, downloaded);
    CleanPostcondition(t, invalid, downloaded);
    assert NoRowsOf(r, invalid2) by {
      assert invalid2 <= Doomed(t, invalid, downloaded);
    }
    CleanFixesClean(r, invalid2, downloaded);
  }

  /** What a clean-up run leaves behind and reports. */
  datatype CleanOutcome = CleanOutcome(
    tables: Tables,
    invalidFileDeleted: bool,
    deletedInvalidBatchIds: int,
    deletedInvalidRows: int,
    deletedNotDownloaded: int,
    deletedNonCommitted: int,
    error: Option<CleanError>)

  /**
   * A run that got past the configuration and `invalid.json`: phase 1 and
   * the deletion of `invalid.json`, then either phase 2 refused for too many
   * parameters, with phase 3 never run, or phases 2 and 3 with their counters.
   */
  ghost predicate Cleaned(o: CleanOutcome, t: Tables, invalid: set<Guid>, downloaded: set<Guid>, deleteFails: bool, parameterLimit: nat)
  {
    var t1 := DeleteBatches(t, invalid);
    var t2 := DeleteBatches(t1, CommittedNotDownloaded(t1, downloaded));
    && o.deletedInvalidBatchIds == 0
    && o.deletedInvalidRows == CascadeRows(t, invalid)
    && o.invalidFileDeleted == (|invalid| > 0 && !deleteFails)
    && if |downloaded| > parameterLimit then
         && o.error == Some(TooManyParameters(|downloaded|))
         && o.tables == t1
         && o.deletedNotDownloaded == 0 && o.deletedNonCommitted == 0
       else
         && o.error.None?
         && o.tables == CleanTables(t, invalid, downloaded)
         && o.deletedNotDownloaded == CascadeRows(t1, CommittedNotDownloaded(t1, downloaded))
         && o.deletedNonCommitted == CascadeRows(t2, NonCommitted(t2))
  }

  /**
   * Phase 1 of `CleanAsync`: `DeleteBatchAsync` for each invalid id in turn,
   * counting the probe's verdicts and the rows of the cascades.
   */
  method DeleteInvalidBatches(tables: Tables, invalid: set<Guid>)
    returns (current: Tables, deletedInvalidBatchIds: int, deletedInvalidRows: int)
    ensures current == DeleteBatches(tables, invalid)
    ensures deletedInvalidBatchIds == 0
    ensures deletedInvalidRows == CascadeRows(tables, invalid)
  {
    deletedInvalidBatchIds := 0;
    deletedInvalidRows := 0;
    current := tables;
    var remaining := invalid;
    ghost var done: set<Guid> := {};
    assert current == DeleteBatches(tables, done) && deletedInvalidRows == CascadeRows(tables, done) by {
      DeleteAbsentBatches(tables, done);
      NoRowsNoCascade(tables, done);
    }
    while remaining != {}
      invariant remaining <= invalid && done == invalid - remaining
      invariant current == DeleteBatches(tables, done)
      invariant deletedInvalidBatchIds == 0
      invariant deletedInvalidRows == CascadeRows(tables, done)
      decreases |remaining|
    {
      var batchId :| batchId in remaining;
      var result := DeleteBatch(current, batchId);
      if result.batchDeleted {
        deletedInvalidBatchIds := deletedInvalidBatchIds + 1;
      }
      assert result.tables == DeleteBatches(tables, done + {batchId})
        && deletedInvalidRows + result.rowsAffected == CascadeRows(tables, done + {batchId}) by {
        DeleteBatchesTwice(tables, done, {batchId});
        CascadeRowsAdd(tables, done, batchId);
      }
      deletedInvalidRows := deletedInvalidRows + result.rowsAffected;
      current := result.tables;
      remaining := remaining - {batchId};
      done := done + {batchId};
    }
    assert done == invalid;
  }

  /**
   * `CleanAsync`. `invalidFile` is `invalid.json`, `listing` the files below
   * the data image directory, `tables` the catalog, `deleteFails` whether
   * `File.Delete` of `invalid.json` throws (that exception is swallowed), and
   * `parameterLimit` the most parameters the server takes in one command.
   * The downloaded ids are scanned under `ContentRootAsWritten`, as the
   * source does; `CleanAfterImport` states what scanning `ContentRoot` gives.
   */
  method CleanAsync(
    file: ConfigurationReader.ConfigFile,
    env: ConfigurationReader.Environment,
    invalidFile: InvalidFile,
    listing: set<seq<string>>,
    tables: Tables,
    deleteFails: bool,
    parameterLimit: nat)
    returns (outcome: CleanOutcome)
    ensures ConfigurationReader.GetDataImagePath(file).Err? ==>
      outcome == CleanOutcome(tables, false, 0, 0, 0, 0, Some(Config(ConfigurationReader.GetDataImagePath(file).error)))
    ensures ConfigurationReader.GetDataImagePath(file).Ok? && ReadInvalidIds(invalidFile).Err? ==>
      outcome == CleanOutcome(tables, false, 0, 0, 0, 0, Some(InvalidFileUnreadable))
    ensures outcome.error.Some? && !outcome.error.value.TooManyParameters? ==>
      outcome.tables == tables && !outcome.invalidFileDeleted
    ensures outcome.error.None? || outcome.error.value.TooManyParameters? <==>
      && ConfigurationReader.GetDataImagePath(file).Ok?
      && ReadInvalidIds(invalidFile).Ok?
      && ConfigurationReader.GetTargetDatabaseConnectionString(env, FileShareEmulatorDatabase).Ok?
    ensures outcome.error.None? || outcome.error.value.TooManyParameters? ==>
      Cleaned(outcome, tables, ReadInvalidIds(invalidFile).value, DownloadedIds(listing, ContentRootAsWritten), deleteFails, parameterLimit)
  {
    var dataImagePath := ConfigurationReader.GetDataImagePath(file);
    if dataImagePath.Err? {
      return CleanOutcome(tables, false, 0, 0, 0, 0, Some(Config(dataImagePath.error)));
    }
    var invalidIds := ReadInvalidIds(invalidFile);
    if invalidIds.Err? {
      return CleanOutcome(tables, false, 0, 0, 0, 0, Some(invalidIds.error));
    }
    var invalid := invalidIds.value;
    var downloadedBatchIds := GetDownloadedBatchIds(listing, ContentRootAsWritten);
    var connection := ConfigurationReader.GetTargetDatabaseConnectionString(env, FileShareEmulatorDatabase);
    if connection.Err? {
      return CleanOutcome(tables, false, 0, 0, 0, 0, Some(Config(connection.error)));
    }

    var current, deletedInvalidBatchIds, deletedInvalidRows := DeleteInvalidBatches(tables, invalid);

    var invalidFileDeleted := false;
    if |invalid| > 0 {
      if !deleteFails {
        invalidFileDeleted := true;
      }
    }

    var afterNotDownloaded := DeleteCommittedBatchesNotDownloaded(current, downloadedBatchIds, parameterLimit);
    if afterNotDownloaded.Err? {
      return CleanOutcome(current, invalidFileDeleted, deletedInvalidBatchIds, deletedInvalidRows, 0, 0,
        Some(afterNotDownloaded.error));
    }
    var deletedNotDownloaded := CascadeRows(current, CommittedNotDownloaded(current, downloadedBatchIds));
    var afterNonCommitted := DeleteNonCommittedBatches(afterNotDownloaded.value);
    var deletedNonCommitted := CascadeRows(afterNotDownloaded.value, NonCommitted(afterNotDownloaded.value));
    outcome := CleanOutcome(afterNonCommitted, invalidFileDeleted, deletedInvalidBatchIds, deletedInvalidRows,
      deletedNotDownloaded, deletedNonCommitted, None);
  }

  /** The files under the data image directory after `ContentImporter` wrote the zips of `imported`. */
  function BinListing(imported: set<Guid>): set<seq<string>>
  {
    set id | id in imported :: ContentImporter.ArtifactPath(id)
  }

  /** The listing of a run's artifacts is the `BinListing` of the batches it downloaded. */
  lemma RunListing(run: ContentImporter.ImportRun, order: seq<Paging.PageRow>, download: Guid -> ContentImporter.Download)
    requires ContentImporter.DownloadedInOrder(run.artifacts, order, download)
    ensures (set a | a in run.artifacts :: ContentImporter.ArtifactPath(a.id)) == BinListing(set k | 0 <= k < |run.artifacts| :: order[k].id)
  {
    var imported := set k | 0 <= k < |run.artifacts| :: order[k].id;
    forall p | p in BinListing(imported) ensures p in (set a | a in run.artifacts :: ContentImporter.ArtifactPath(a.id)) {
      var id :| id in imported && p == ContentImporter.ArtifactPath(id);
      var k :| 0 <= k < |run.artifacts| && order[k].id == id;
      assert run.artifacts[k].id == id;
    }
  }

  /** A zip `ContentImporter` writes is found under `bin` and not under `bin/content`. */
  lemma ZipIdOfArtifact(id: Guid)
    ensures ZipId(ContentImporter.ArtifactPath(id), ContentRoot) == Some(id)
    ensures ZipId(ContentImporter.ArtifactPath(id), ContentRootAsWritten) == None
  {
    var p := ContentImporter.ArtifactPath(id);
    var name := p[2];
    assert name[..|name| - 4] == FormatD(id);
    assert name[|name| - 4..] == ".zip";
    ParseFormatD(id);
    assert p[..1] == ContentRoot;
    assert p[..2] != ContentRootAsWritten by {
      assert |p[1]| == 2 && |ContentRootAsWritten[1]| == 7;
    }
  }

  /** The scan as written sees none of the zips `ContentImporter` wrote. */
  lemma ScanAsWrittenMissesImport(imported: set<Guid>)
    ensures DownloadedIds(BinListing(imported), ContentRootAsWritten) == {}
  {
    forall id | id in imported {
      ZipIdOfArtifact(id);
    }
  }

  lemma ImportedFound(imported: set<Guid>, id: Guid)
    requires id in imported
    ensures id in DownloadedIds(BinListing(imported), ContentRoot)
  {
    ZipIdOfArtifact(id);
    assert ContentImporter.ArtifactPath(id) in BinListing(imported);
  }

  lemma FoundImported(imported: set<Guid>, id: Guid)
    requires id in DownloadedIds(BinListing(imported), ContentRoot)
    ensures id in imported
  {
    var p :| p in BinListing(imported) && ZipId(p, ContentRoot) == Some(id);
    var x :| x in imported && p == ContentImporter.ArtifactPath(x);
    ZipIdOfArtifact(x);
  }

  /** Scanning `bin` finds exactly the batches `ContentImporter` wrote. */
  lemma ScanFindsImport(imported: set<Guid>)
    ensures DownloadedIds(BinListing(imported), ContentRoot) == imported
  {
    var found := DownloadedIds(BinListing(imported), ContentRoot);
    forall id | id in imported ensures id in found {
      ImportedFound(imported, id);
    }
    forall id | id in found ensures id in imported {
      FoundImported(imported, id);
    }
  }

  /** With the scan as written, cleaning after an import deletes every batch. */
  lemma CleanAfterImportAsWritten(t: Tables, invalid: set<Guid>, imported: set<Guid>)
    ensures CleanTables(t, invalid, DownloadedIds(BinListing(imported), ContentRootAsWritten)).batch == map[]
  {
    ScanAsWrittenMissesImport(imported);
    CleanPostcondition(t, invalid, {});
  }

  /**
   * A `CleanAsync` run after an import: the scan as written finds nothing,
   * so phase 2 is never refused, and the run leaves no batch at all.
   */
  lemma CleanAsyncAfterImport(o: CleanOutcome, t: Tables, invalid: set<Guid>, imported: set<Guid>, deleteFails: bool, parameterLimit: nat)
    requires Cleaned(o, t, invalid, DownloadedIds(BinListing(imported), ContentRootAsWritten), deleteFails, parameterLimit)
    ensures o.error.None? && o.tables.batch == map[]
  {
    ScanAsWrittenMissesImport(imported);
    CleanAfterImportAsWritten(t, invalid, imported);
  }

  /** Scanning `bin`, cleaning after an import keeps exactly the imported committed batches that are not invalid. */
  lemma CleanAfterImport(t: Tables, invalid: set<Guid>, imported: set<Guid>)
    ensures var r := CleanTables(t, invalid, DownloadedIds(BinListing(imported), ContentRoot));
      forall id :: id in r.batch <==>
        id in imported && id in t.batch && t.batch[id].status == Committed && id !in invalid
  {
    ScanFindsImport(imported);
    CleanPostcondition(t, invalid, imported);
  }
}
