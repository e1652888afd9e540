/**
 * `ContentImporter.ImportAsync`: pages through the whole `Batch` table in
 * `(CreatedOn DESC, Id DESC)` order, 1000 rows at a time, and downloads each
 * batch's zip to `bin/<shard>/<id>.zip` until the byte budget is reached or
 * the table is exhausted. The file share service is a function from batch id
 * to the outcome of the download and copy; the `bin` directory is described
 * by the artifacts the run writes into it after recreating it empty.
 */
module ContentImporter {
  import opened Wrappers
  import opened Guids
  import Catalog
  import ConfigurationReader
  import opened Paging

  const PageSize := 1000
  const BytesPerGB := 1024 * 1024 * 1024
  const Int64Max := 0x7FFF_FFFF_FFFF_FFFF

  /** What `DownloadZipFileAsync` and the copy to disk give for one batch. */
  datatype Download = Downloaded(length: nat) | Failed(reason: string)

  /** The zip of batch `id` written under the data image directory at `ArtifactPath(id)`, and its length. */
  datatype Artifact = Artifact(id: Guid, length: nat)

  datatype ImportError =
    | Config(error: ConfigurationReader.ConfigError)
    | DownloadFailed(id: Guid, reason: string)   // InvalidOperationException: aborts the run

  /**
   * The observable result of a run: whether `bin` was recreated, the
   * artifacts written into it in order, the two counters, the number of page
   * queries issued, and the exception that ended the run, if any.
   */
  datatype ImportRun = ImportRun(
    binRecreated: bool,
    artifacts: seq<Artifact>,
    totalBytes: int,
    totalBatches: int,
    pages: nat,
    error: Option<ImportError>)

  /** `bin/<shard>/<Id "D">.zip`, relative to the data image directory. */
  function ArtifactPath(id: Guid): (p: seq<string>)
    ensures |p| == 3 && p[0] == "bin" && |p[1]| == 2 && p[2] == FormatD(id) + ".zip"
  {
    ["bin", MostSignificantByteHex(id), FormatD(id) + ".zip"]
  }

  /** `(long)GB * 1024L * 1024L * 1024L`. */
  function MaxBytes(gb: int): int
  {
    gb * BytesPerGB
  }

  /** For every positive int32 size the budget is positive and fits in a `long`. */
  lemma MaxBytesFitsInt64(gb: int)
    requires 0 < gb <= ConfigurationReader.Int32Max
    ensures 0 < MaxBytes(gb) <= Int64Max
  {
  }

  /** Every `Batch` row in the order the pages visit them. */
  function CatalogOrder(key: Guid -> int, batch: map<Guid, Catalog.BatchInfo>): (order: seq<PageRow>)
    requires InjectiveKey(key)
    ensures |order| == |batch|
  {
    RowsCardinality(batch);
    TopNSpec(key, Rows(batch), |batch|);
    TopN(key, Rows(batch), |batch|)
  }

  /** The visiting order holds every batch exactly once, whatever its `Status`, strictly descending. */
  lemma CatalogOrderSpec(key: Guid -> int, batch: map<Guid, Catalog.BatchInfo>)
    requires InjectiveKey(key)
    ensures var order := CatalogOrder(key, batch);
      && StrictlyDescending(key, order)
      && (forall k :: 0 <= k < |order| ==> order[k].id in batch && batch[order[k].id].createdOn == order[k].createdOn)
      && (forall id :: id in batch ==> exists k :: 0 <= k < |order| && order[k].id == id)
  {
    var rows := Rows(batch);
    RowsCardinality(batch);
    TopNSpec(key, rows, |batch|);
    TopNAll(key, rows, |batch|);
    var order := CatalogOrder(key, batch);
    forall id | id in batch ensures exists k :: 0 <= k < |order| && order[k].id == id {
      var x := PageRow(id, batch[id].createdOn);
      assert x in rows;
      assert x in order;
    }
  }

  /** Total length of the artifacts written so far. */
  function TotalLength(a: seq<Artifact>): nat
  {
    if a == [] then 0 else TotalLength(a[..|a| - 1]) + a[|a| - 1].length
  }

  /** The artifacts are the successful downloads of the first `|a|` rows of `order`, in that order. */
  ghost predicate DownloadedInOrder(a: seq<Artifact>, order: seq<PageRow>, download: Guid -> Download)
  {
    |a| <= |order|
    && forall k :: 0 <= k < |a| ==>
      download(order[k].id).Downloaded? && a[k] == Artifact(order[k].id, download(order[k].id).length)
  }

  /**
   * The last download started while the running total was below the budget;
   * totals only grow, so every earlier one did too (`EveryDownloadStartedUnderBudget`).
   */
  ghost predicate StartedUnderBudget(a: seq<Artifact>, maxBytes: int)
  {
    a == [] || TotalLength(a[..|a| - 1]) < maxBytes
  }

  /** `GetBatchIdsPageAsync`: reads the page query's rows one by one into a list. */
  method GetBatchIdsPage(key: Guid -> int, batch: map<Guid, Catalog.BatchInfo>, pageSize: nat, cursor: Option<PageRow>)
    returns (results: seq<PageRow>)
    requires InjectiveKey(key)
    ensures results == PageQuery(key, batch, pageSize, cursor)
  {
    var reader := PageQuery(key, batch, pageSize, cursor);
    results := [];
    var i := 0;
    while i < |reader|
      invariant 0 <= i <= |reader| && results == reader[..i]
    {
      results := results + [reader[i]];
      i := i + 1;
    }
  }

  /**
   * A page holds at most `pageSize` rows of the `Batch` table, strictly
   * descending, all after the cursor when there is one.
   */
  lemma PageQuerySpec(key: Guid -> int, batch: map<Guid, Catalog.BatchInfo>, pageSize: nat, cursor: Option<PageRow>)
    requires InjectiveKey(key)
    ensures var page := PageQuery(key, batch, pageSize, cursor);
      && |page| <= pageSize && StrictlyDescending(key, page)
      && (forall k :: 0 <= k < |page| ==> page[k] in Rows(batch))
      && (cursor.Some? ==> forall k :: 0 <= k < |page| ==> Precedes(key, cursor.value, page[k]))
  {
    match cursor {
      case None => TopNSpec(key, Rows(batch), pageSize);
      case Some(c) => TopNSpec(key, After(key, Rows(batch), c), pageSize);
    }
  }

  /** The first `n` rows of the catalog order are what `TOP (n)` returns. */
  lemma OrderPrefix(key: Guid -> int, batch: map<Guid, Catalog.BatchInfo>, n: nat)
    requires InjectiveKey(key) && n <= |batch|
    ensures CatalogOrder(key, batch)[..n] == TopN(key, Rows(batch), n)
  {
    var rows := Rows(batch);
    RowsCardinality(batch);
    TopNSpec(key, rows, n);
    TopNPrefix(key, rows, n, |batch|);
  }

  /** The page after the first `|fetched|` rows, or the first page, extends them to `TOP (|fetched| + PageSize)`. */
  lemma PageExtendsTop(key: Guid -> int, rows: set<PageRow>, fetched: seq<PageRow>, page: seq<PageRow>)
    requires InjectiveKey(key) && fetched == TopN(key, rows, |fetched|)
    requires |fetched| == 0 ==> page == TopN(key, rows, PageSize)
    requires |fetched| != 0 ==> page == TopN(key, After(key, rows, fetched[|fetched| - 1]), PageSize)
    ensures fetched + page == TopN(key, rows, |fetched| + PageSize)
  {
    if |fetched| == 0 {
      assert fetched + page == page;
    } else {
      NextPageContinues(key, rows, |fetched|, PageSize);
    }
  }

  /** The rows fetched so far are a prefix of the catalog order; the next page extends it. */
  lemma FetchedAdvance(key: Guid -> int, batch: map<Guid, Catalog.BatchInfo>, fetched: seq<PageRow>, page: seq<PageRow>)
    requires InjectiveKey(key)
    requires |fetched| <= |batch| && fetched == CatalogOrder(key, batch)[..|fetched|]
    requires page == PageQuery(key, batch, PageSize, if |fetched| == 0 then None else Some(fetched[|fetched| - 1]))
    ensures |fetched + page| <= |batch| && fetched + page == CatalogOrder(key, batch)[..|fetched + page|]
    ensures page == [] ==> |fetched| == |batch|
  {
    var rows := Rows(batch);
    var n := |fetched|;
    var next := fetched + page;
    OrderPrefix(key, batch, n);
    PageExtendsTop(key, rows, fetched, page);
    assert |next| == Min(n + PageSize, |batch|) by {
      RowsCardinality(batch);
      TopNSpec(key, rows, n + PageSize);
    }
    assert next == TopN(key, rows, |next|) by {
      TopNPrefix(key, rows, |next|, n + PageSize);
      TopNSpec(key, rows, |next|);
    }
    OrderPrefix(key, batch, |next|);
  }

  lemma LastOfConcat<T>(a: seq<T>, b: seq<T>)
    requires b != []
    ensures (a + b)[|a + b| - 1] == b[|b| - 1]
  {
  }

  lemma TotalLengthAppend(a: seq<Artifact>, x: Artifact)
    ensures TotalLength(a + [x]) == TotalLength(a) + x.length
  {
    assert (a + [x])[..|a|] == a;
  }

  /** Adding one artifact while the total is below the budget keeps the last start under the budget. */
  lemma AppendUnderBudget(a: seq<Artifact>, x: Artifact, maxBytes: int)
    requires TotalLength(a) < maxBytes
    ensures StartedUnderBudget(a + [x], maxBytes)
  {
    assert (a + [x])[..|a|] == a;
  }

  /** The running total never decreases. */
  lemma {:induction false} TotalLengthMonotone(a: seq<Artifact>, k: nat)
    requires k <= |a|
    ensures TotalLength(a[..k]) <= TotalLength(a)
    decreases |a|
  {
    if k < |a| {
      var init := a[..|a| - 1];
      TotalLengthMonotone(init, k);
      assert init[..k] == a[..k];
    } else {
      assert a[..k] == a;
    }
  }

  /** Under `StartedUnderBudget` every download of the run started below the budget. */
  lemma EveryDownloadStartedUnderBudget(a: seq<Artifact>, maxBytes: int)
    requires StartedUnderBudget(a, maxBytes)
    ensures forall k :: 0 <= k < |a| ==> TotalLength(a[..k]) < maxBytes
  {
    forall k | 0 <= k < |a| ensures TotalLength(a[..k]) < maxBytes {
      var init := a[..|a| - 1];
      TotalLengthMonotone(init, k);
      assert init[..k] == a[..k];
    }
  }

  /** One more successful download, of the next row in order, keeps the artifacts in order. */
  lemma AppendDownload(a: seq<Artifact>, order: seq<PageRow>, download: Guid -> Download)
    requires DownloadedInOrder(a, order, download) && |a| < |order| && download(order[|a|].id).Downloaded?
    ensures DownloadedInOrder(a + [Artifact(order[|a|].id, download(order[|a|].id).length)], order, download)
  {
  }

  /** The artifacts of a run are also in order with respect to any longer prefix of the rows. */
  lemma DownloadedInLongerOrder(a: seq<Artifact>, fetched: seq<PageRow>, order: seq<PageRow>, download: Guid -> Download)
    requires DownloadedInOrder(a, fetched, download)
    requires |fetched| <= |order| && fetched == order[..|fetched|]
    ensures DownloadedInOrder(a, order, download)
  {
    assert forall k :: 0 <= k < |fetched| ==> fetched[k] == order[k];
  }

  /** A run that stopped after fetching the prefix `fetched` of the catalog order is `Imported`. */
  lemma RunImported(run: ImportRun, order: seq<PageRow>, fetched: seq<PageRow>, download: Guid -> Download, maxBytes: int)
    requires |fetched| <= |order| && fetched == order[..|fetched|]
    requires DownloadedInOrder(run.artifacts, fetched, download)
    requires run.totalBytes == TotalLength(run.artifacts) && run.totalBatches == |run.artifacts|
    requires StartedUnderBudget(run.artifacts, maxBytes)
    requires run.error.None? ==> |run.artifacts| == |order| || run.totalBytes >= maxBytes
    requires run.error.Some? ==>
      && run.error.value.DownloadFailed?
      && |run.artifacts| < |fetched| && run.totalBytes < maxBytes
      && run.error.value.id == fetched[|run.artifacts|].id
      && download(run.error.value.id) == Failed(run.error.value.reason)
    ensures Imported(run, order, download, maxBytes)
  {
    DownloadedInLongerOrder(run.artifacts, fetched, order, download);
    if run.error.Some? {
      assert fetched[|run.artifacts|] == order[|run.artifacts|];
    }
  }

  /** The state of a run that did not fail on configuration: the first batches downloaded within the budget. */
  ghost predicate Imported(run: ImportRun, order: seq<PageRow>, download: Guid -> Download, maxBytes: int)
  {
    && DownloadedInOrder(run.artifacts, order, download)
    && run.totalBytes == TotalLength(run.artifacts)
    && run.totalBatches == |run.artifacts|
    && StartedUnderBudget(run.artifacts, maxBytes)
    && (run.error.None? ==> |run.artifacts| == |order| || run.totalBytes >= maxBytes)
    && (run.error.Some? ==>
          && run.error.value.DownloadFailed?
          && |run.artifacts| < |order| && run.totalBytes < maxBytes
          && run.error.value.id == order[|run.artifacts|].id
          && download(run.error.value.id) == Failed(run.error.value.reason))
  }

  /**
   * The inner loop of `ImportAsync`: download each batch of one page in
   * turn, adding its length to the running total, and stop after the
   * download that reaches `maxBytes` or at the first failed download.
   * `next` is the rows fetched so far, ending with `page`.
   */
  method DownloadPage(
    page: seq<PageRow>,
    download: Guid -> Download,
    maxBytes: int,
    artifacts0: seq<Artifact>,
    totalBytes0: int,
    totalBatches0: int,
    ghost fetched: seq<PageRow>)
    returns (artifacts: seq<Artifact>, totalBytes: int, totalBatches: int, failure: Option<ImportError>)
    requires |artifacts0| == |fetched|
    requires DownloadedInOrder(artifacts0, fetched, download) && StartedUnderBudget(artifacts0, maxBytes)
    requires totalBytes0 == TotalLength(artifacts0) && totalBatches0 == |artifacts0| && totalBytes0 < maxBytes
    ensures |fetched| <= |artifacts| <= |fetched + page|
    ensures DownloadedInOrder(artifacts, fetched + page, download) && StartedUnderBudget(artifacts, maxBytes)
    ensures totalBytes == TotalLength(artifacts) && totalBatches == |artifacts|
    ensures failure.None? ==> (|artifacts| < |fetched + page| ==> totalBytes >= maxBytes)
    ensures failure.Some? ==>
      && failure.value.DownloadFailed?
      && |artifacts| < |fetched + page| && totalBytes < maxBytes
      && failure.value.id == (fetched + page)[|artifacts|].id
      && download(failure.value.id) == Failed(failure.value.reason)
  {
    ghost var next := fetched + page;
    assert fetched == next[..|fetched|];
    DownloadedInLongerOrder(artifacts0, fetched, next, download);
    artifacts, totalBytes, totalBatches, failure := artifacts0, totalBytes0, totalBatches0, None;
    var i := 0;
    while i < |page|
      invariant 0 <= i <= |page|
      invariant |artifacts| == |fetched| + i
      invariant DownloadedInOrder(artifacts, next, download)
      invariant totalBytes == TotalLength(artifacts) && totalBatches == |artifacts|
      invariant StartedUnderBudget(artifacts, maxBytes)
      invariant totalBytes < maxBytes
    {
      var row := page[i];
      assert row == next[|artifacts|];
      var result := download(row.id);
      if result.Failed? {
        failure := Some(DownloadFailed(row.id, result.reason));
        return;
      }
      var artifact := Artifact(row.id, result.length);
      AppendDownload(artifacts, next, download);
      AppendUnderBudget(artifacts, artifact, maxBytes);
      TotalLengthAppend(artifacts, artifact);
      artifacts := artifacts + [artifact];
      totalBytes := totalBytes + result.length;
      totalBatches := totalBatches + 1;
      if totalBytes >= maxBytes {
        return;
      }
      i := i + 1;
    }
  }

  /**
   * The outer loop of `ImportAsync`: page through the catalog with the
   * cursor `(lastCreatedOn, lastId)`, download each page, and stop after the
   * page that ran out or the download that reached `maxBytes`. A failed
   * download ends the run with the artifacts written so far.
   */
  method DownloadBatches(
    key: Guid -> int,
    batch: map<Guid, Catalog.BatchInfo>,
    download: Guid -> Download,
    maxBytes: int)
    returns (run: ImportRun)
    requires InjectiveKey(key)
    ensures run.binRecreated
    ensures run.error.None? || run.error.value.DownloadFailed?
    ensures Imported(run, CatalogOrder(key, batch), download, maxBytes)
  {
    var totalBytesDownloaded := 0;
    var totalBatchesDownloaded := 0;
    var pageNumber := 0;
    var cursor: Option<PageRow> := None;
    var artifacts: seq<Artifact> := [];
    ghost var order := CatalogOrder(key, batch);
    ghost var fetched: seq<PageRow> := [];

    while totalBytesDownloaded < maxBytes
      invariant |fetched| <= |batch| && fetched == order[..|fetched|]
      invariant cursor == if |fetched| == 0 then None else Some(fetched[|fetched| - 1])
      invariant DownloadedInOrder(artifacts, fetched, download)
      invariant |artifacts| < |fetched| ==> totalBytesDownloaded >= maxBytes
      invariant totalBytesDownloaded == TotalLength(artifacts) && totalBatchesDownloaded == |artifacts|
      invariant StartedUnderBudget(artifacts, maxBytes)
      decreases |batch| - |fetched|
    {
      pageNumber := pageNumber + 1;
      var batchIds := GetBatchIdsPage(key, batch, PageSize, cursor);
      FetchedAdvance(key, batch, fetched, batchIds);
      if |batchIds| == 0 {
        break;
      }

      ghost var next := fetched + batchIds;
      var failure;
      artifacts, totalBytesDownloaded, totalBatchesDownloaded, failure :=
        DownloadPage(batchIds, download, maxBytes, artifacts, totalBytesDownloaded, totalBatchesDownloaded, fetched);
      if failure.Some? {
        run := ImportRun(true, artifacts, totalBytesDownloaded, totalBatchesDownloaded, pageNumber, failure);
        RunImported(run, order, next, download, maxBytes);
        return;
      }

      LastOfConcat(fetched, batchIds);
      cursor := Some(batchIds[|batchIds| - 1]);
      fetched := next;
    }
    run := ImportRun(true, artifacts, totalBytesDownloaded, totalBatchesDownloaded, pageNumber, None);
    RunImported(run, order, fetched, download, maxBytes);
  }

  /**
   * `ImportAsync`. The configuration is read in the source's order
   * (`dataImagePath`, then the recreation of `bin`, then `dataImageBinSizeGB`
   * and the catalog's connection string); `key` is SQL Server's order on ids,
   * `batch` the `Batch` table and `download` the file share service.
   */
  method ImportAsync(
    file: ConfigurationReader.ConfigFile,
    env: ConfigurationReader.Environment,
    key: Guid -> int,
    batch: map<Guid, Catalog.BatchInfo>,
    download: Guid -> Download)
    returns (run: ImportRun)
    requires InjectiveKey(key)
    ensures ConfigurationReader.GetDataImagePath(file).Err? ==>
      run == ImportRun(false, [], 0, 0, 0, Some(Config(ConfigurationReader.GetDataImagePath(file).error)))
    ensures ConfigurationReader.GetDataImagePath(file).Ok? ==> run.binRecreated
    ensures run.error.Some? && run.error.value.Config? ==> run.artifacts == [] && run.pages == 0
    ensures run.error.None? || run.error.value.DownloadFailed? ==>
      && ConfigurationReader.GetDataImageBinSizeGB(file).Ok?
      && ConfigurationReader.GetTargetDatabaseConnectionString(env, Catalog.FileShareEmulatorDatabase).Ok?
      && Imported(run, CatalogOrder(key, batch), download, MaxBytes(ConfigurationReader.GetDataImageBinSizeGB(file).value))
  {
    var dataImagePath := ConfigurationReader.GetDataImagePath(file);
    if dataImagePath.Err? {
      return ImportRun(false, [], 0, 0, 0, Some(Config(dataImagePath.error)));
    }
    // RecreateEmptyDirectory(bin): from here on the artifacts of the run are the whole content of bin.
    var gb := ConfigurationReader.GetDataImageBinSizeGB(file);
    if gb.Err? {
      return ImportRun(true, [], 0, 0, 0, Some(Config(gb.error)));
    }
    var maxBytes := MaxBytes(gb.value);
    var connection := ConfigurationReader.GetTargetDatabaseConnectionString(env, Catalog.FileShareEmulatorDatabase);
    if connection.Err? {
      return ImportRun(true, [], 0, 0, 0, Some(Config(connection.error)));
    }
    run := DownloadBatches(key, batch, download, maxBytes);
  }
}
