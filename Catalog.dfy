/**
 * The local catalog database the image builder pages through and cleans:
 * the `Batch` table and the four tables that hang off it. Tables are finite
 * values; the SQL statements of the builder become functions over them.
 */
module Catalog {
  import opened Guids

  /** `StorageNames.FileShareEmulatorDatabase`: the local catalog database. */
  const FileShareEmulatorDatabase := "fileshare-emulator-db"

  /** `Batch.Status` of a committed batch. */
  const Committed := 3

  /** The columns of a `Batch` row the builder reads, keyed by `Batch.Id`. */
  datatype BatchInfo = BatchInfo(createdOn: int, status: int)

  /** A `FileAttribute` row: `key` stands for its other columns. */
  datatype FileAttributeRow = FileAttributeRow(key: int, fileId: int)

  /** A row of `BatchReadGroup`, `BatchReadUser` or `BatchAttribute`: `key` stands for its other columns. */
  datatype BatchChildRow = BatchChildRow(key: int, batchId: Guid)

  datatype Tables = Tables(
    batch: map<Guid, BatchInfo>,
    file: map<int, Guid>,              // File.Id -> File.BatchId
    fileAttribute: set<FileAttributeRow>,
    batchReadGroup: set<BatchChildRow>,
    batchReadUser: set<BatchChildRow>,
    batchAttribute: set<BatchChildRow>)

  /** Whether a `FileAttribute` row belongs, through its `File`, to one of `ids`. */
  predicate AttributeOf(t: Tables, fa: FileAttributeRow, ids: set<Guid>)
  {
    fa.fileId in t.file && t.file[fa.fileId] in ids
  }

  /** Every dependent row refers to a batch (and file) that exists. */
  predicate NoOrphans(t: Tables)
  {
    && (forall f :: f in t.file ==> t.file[f] in t.batch)
    && (forall fa :: fa in t.fileAttribute ==> fa.fileId in t.file)
    && (forall r :: r in t.batchReadGroup ==> r.batchId in t.batch)
    && (forall r :: r in t.batchReadUser ==> r.batchId in t.batch)
    && (forall r :: r in t.batchAttribute ==> r.batchId in t.batch)
  }

  /** No dependent row refers to one of `ids`. */
  predicate NoRowsOf(t: Tables, ids: set<Guid>)
  {
    && (forall id :: id in ids ==> id !in t.batch)
    && (forall f :: f in t.file ==> t.file[f] !in ids)
    && (forall fa :: fa in t.fileAttribute ==> !AttributeOf(t, fa, ids))
    && (forall r :: r in t.batchReadGroup ==> r.batchId !in ids)
    && (forall r :: r in t.batchReadUser ==> r.batchId !in ids)
    && (forall r :: r in t.batchAttribute ==> r.batchId !in ids)
  }

  /**
   * The cascade the builder writes out by hand, in its order: `FileAttribute`
   * rows joined through `File`, then `BatchReadGroup`, `BatchReadUser`,
   * `BatchAttribute`, `File`, and finally the `Batch` rows of `ids`.
   */
  function DeleteBatches(t: Tables, ids: set<Guid>): (r: Tables)
    ensures r.batch.Keys == t.batch.Keys - ids && forall id :: id in r.batch ==> r.batch[id] == t.batch[id]
    ensures r.file.Keys <= t.file.Keys && forall f :: f in t.file ==> (f in r.file <==> t.file[f] !in ids)
    ensures forall f :: f in r.file ==> r.file[f] == t.file[f]
    ensures forall fa :: fa in r.fileAttribute <==> fa in t.fileAttribute && !AttributeOf(t, fa, ids)
    ensures forall x :: x in r.batchReadGroup <==> x in t.batchReadGroup && x.batchId !in ids
    ensures forall x :: x in r.batchReadUser <==> x in t.batchReadUser && x.batchId !in ids
    ensures forall x :: x in r.batchAttribute <==> x in t.batchAttribute && x.batchId !in ids
  {
    Tables(
      t.batch - BatchRowsOf(t, ids),
      t.file - FileRowsOf(t, ids),
      t.fileAttribute - FileAttributeRowsOf(t, ids),
      t.batchReadGroup - ChildRowsOf(t.batchReadGroup, ids),
      t.batchReadUser - ChildRowsOf(t.batchReadUser, ids),
      t.batchAttribute - ChildRowsOf(t.batchAttribute, ids))
  }

  /** The cascade leaves no row of the deleted batches behind. */
  lemma DeleteBatchesRemovesAll(t: Tables, ids: set<Guid>)
    ensures NoRowsOf(DeleteBatches(t, ids), ids)
  {
    var r := DeleteBatches(t, ids);
    forall fa | fa in r.fileAttribute ensures !AttributeOf(r, fa, ids) {
      if fa.fileId in r.file {
        assert r.file[fa.fileId] == t.file[fa.fileId];
      }
    }
  }

  /** The `FileAttribute` rows the cascade for `ids` matches (joined through `File`). */
  function FileAttributeRowsOf(t: Tables, ids: set<Guid>): set<FileAttributeRow>
  {
    set fa | fa in t.fileAttribute && AttributeOf(t, fa, ids)
  }

  /** The rows of a `BatchReadGroup`, `BatchReadUser` or `BatchAttribute` table that belong to `ids`. */
  function ChildRowsOf(rows: set<BatchChildRow>, ids: set<Guid>): set<BatchChildRow>
  {
    set x | x in rows && x.batchId in ids
  }

  /** The `File` rows that belong to `ids`. */
  function FileRowsOf(t: Tables, ids: set<Guid>): set<int>
  {
    set f | f in t.file && t.file[f] in ids
  }

  /** The `Batch` rows of `ids`. */
  function BatchRowsOf(t: Tables, ids: set<Guid>): set<Guid>
  {
    set id | id in t.batch && id in ids
  }

  /**
   * The rows the cascade for `ids` matches, statement by statement: the sum
   * of the row counts `ExecuteNonQuery` reports for it.
   */
  function CascadeRows(t: Tables, ids: set<Guid>): nat
  {
    |FileAttributeRowsOf(t, ids)|
    + |ChildRowsOf(t.batchReadGroup, ids)|
    + |ChildRowsOf(t.batchReadUser, ids)|
    + |ChildRowsOf(t.batchAttribute, ids)|
    + |FileRowsOf(t, ids)|
    + |BatchRowsOf(t, ids)|
  }

  /** Deleting one set of batches and then another is deleting their union. */
  lemma DeleteBatchesTwice(t: Tables, a: set<Guid>, b: set<Guid>)
    ensures DeleteBatches(DeleteBatches(t, a), b) == DeleteBatches(t, a + b)
  {
    var t1 := DeleteBatches(t, a);
    var l := DeleteBatches(t1, b);
    var r := DeleteBatches(t, a + b);
    assert l.fileAttribute == r.fileAttribute by {
      forall fa ensures fa in l.fileAttribute <==> fa in r.fileAttribute {
        if fa in t.fileAttribute && fa.fileId in t.file && t.file[fa.fileId] !in a {
          assert fa.fileId in t1.file;
        }
      }
    }
    assert l.batch == r.batch;
    assert l.file == r.file;
  }

  /** Deleting batches none of whose rows exist changes nothing. */
  lemma DeleteAbsentBatches(t: Tables, ids: set<Guid>)
    requires NoRowsOf(t, ids)
    ensures DeleteBatches(t, ids) == t
  {
    var r := DeleteBatches(t, ids);
    assert r.batch == t.batch;
    forall f | f in t.file ensures f in r.file {
      assert t.file[f] !in ids;
    }
    assert r.file.Keys == t.file.Keys;
    assert r.file == t.file;
  }

  /** Deleting every row that refers to the deleted batches leaves no orphans behind. */
  lemma DeleteBatchesKeepsNoOrphans(t: Tables, ids: set<Guid>)
    requires NoOrphans(t)
    ensures NoOrphans(DeleteBatches(t, ids))
  {
    var r := DeleteBatches(t, ids);
    forall fa | fa in r.fileAttribute ensures fa.fileId in r.file {
      assert fa in t.fileAttribute && !AttributeOf(t, fa, ids);
    }
  }

  /** A cascade over batches with no rows left matches no row. */
  lemma NoRowsNoCascade(t: Tables, ids: set<Guid>)
    requires NoRowsOf(t, ids)
    ensures CascadeRows(t, ids) == 0
  {
    assert FileAttributeRowsOf(t, ids) == {};
    assert ChildRowsOf(t.batchReadGroup, ids) == {};
    assert ChildRowsOf(t.batchReadUser, ids) == {};
    assert ChildRowsOf(t.batchAttribute, ids) == {};
    forall f ensures f !in FileRowsOf(t, ids) {
      if f in t.file {
        assert t.file[f] !in ids;
      }
    }
    assert FileRowsOf(t, ids) == {};
    assert BatchRowsOf(t, ids) == {};
  }

  lemma DisjointUnionCardinality<T>(a: set<T>, b: set<T>)
    requires a * b == {}
    ensures |a + b| == |a| + |b|
  {
  }

  lemma FileAttributeRowsAdd(t: Tables, done: set<Guid>, id: Guid)
    requires id !in done
    ensures |FileAttributeRowsOf(t, done + {id})|
      == |FileAttributeRowsOf(t, done)| + |FileAttributeRowsOf(DeleteBatches(t, done), {id})|
  {
    var a := FileAttributeRowsOf(t, done);
    var b := FileAttributeRowsOf(DeleteBatches(t, done), {id});
    assert FileAttributeRowsOf(t, done + {id}) == a + b;
    DisjointUnionCardinality(a, b);
  }

  lemma ChildRowsAdd(rows: set<BatchChildRow>, rows1: set<BatchChildRow>, done: set<Guid>, id: Guid)
    requires id !in done
    requires forall x :: x in rows1 <==> x in rows && x.batchId !in done
    ensures |ChildRowsOf(rows, done + {id})| == |ChildRowsOf(rows, done)| + |ChildRowsOf(rows1, {id})|
  {
    var a := ChildRowsOf(rows, done);
    var b := ChildRowsOf(rows1, {id});
    assert ChildRowsOf(rows, done + {id}) == a + b;
    DisjointUnionCardinality(a, b);
  }

  lemma FileRowsAdd(t: Tables, done: set<Guid>, id: Guid)
    requires id !in done
    ensures |FileRowsOf(t, done + {id})| == |FileRowsOf(t, done)| + |FileRowsOf(DeleteBatches(t, done), {id})|
  {
    var a := FileRowsOf(t, done);
    var b := FileRowsOf(DeleteBatches(t, done), {id});
    assert FileRowsOf(t, done + {id}) == a + b;
    DisjointUnionCardinality(a, b);
  }

  lemma BatchRowsAdd(t: Tables, done: set<Guid>, id: Guid)
    requires id !in done
    ensures |BatchRowsOf(t, done + {id})| == |BatchRowsOf(t, done)| + |BatchRowsOf(DeleteBatches(t, done), {id})|
  {
    var a := BatchRowsOf(t, done);
    var b := BatchRowsOf(DeleteBatches(t, done), {id});
    assert BatchRowsOf(t, done + {id}) == a + b;
    DisjointUnionCardinality(a, b);
  }

  /**
   * The cascade for one more id, run after the cascade for `done`, matches
   * the rows the cascade for both would have matched beyond those of `done`.
   */
  lemma CascadeRowsAdd(t: Tables, done: set<Guid>, id: Guid)
    requires id !in done
    ensures CascadeRows(t, done + {id}) == CascadeRows(t, done) + CascadeRows(DeleteBatches(t, done), {id})
  {
    var t1 := DeleteBatches(t, done);
    FileAttributeRowsAdd(t, done, id);
    ChildRowsAdd(t.batchReadGroup, t1.batchReadGroup, done, id);
    ChildRowsAdd(t.batchReadUser, t1.batchReadUser, done, id);
    ChildRowsAdd(t.batchAttribute, t1.batchAttribute, done, id);
    FileRowsAdd(t, done, id);
    BatchRowsAdd(t, done, id);
  }
}
