/**
 * The keyset-paginated query of the content importer:
 *   SELECT TOP (@pageSize) [Id], [CreatedOn] FROM [Batch]
 *   [WHERE ([CreatedOn] < @lastCreatedOn) OR ([CreatedOn] = @lastCreatedOn AND [Id] < @lastId)]
 *   ORDER BY [CreatedOn] DESC, [Id] DESC
 * SQL Server's ordering of `uniqueidentifier` values is left abstract: it is
 * any injective ranking `key` of GUIDs.
 */
module Paging {
  import opened Wrappers
  import opened Guids
  import Catalog

  /** One row of the page query's result. */
  datatype PageRow = PageRow(id: Guid, createdOn: int)

  /**
   * `key` ranks GUIDs as SQL Server orders `uniqueidentifier` values; the
   * ranking is left abstract, and only its injectivity (distinct ids compare
   * unequal) is assumed.
   */
  ghost predicate InjectiveKey(key: Guid -> int)
  {
    forall a, b :: a != b ==> key(a) != key(b)
  }

  /** `a` comes before `b` under `ORDER BY [CreatedOn] DESC, [Id] DESC`. */
  predicate Precedes(key: Guid -> int, a: PageRow, b: PageRow)
  {
    a.createdOn > b.createdOn || (a.createdOn == b.createdOn && key(b.id) < key(a.id))
  }

  /** Two different rows are always ordered one way or the other. */
  lemma PrecedesTotal(key: Guid -> int, a: PageRow, b: PageRow)
    requires InjectiveKey(key) && a != b
    ensures Precedes(key, a, b) || Precedes(key, b, a)
  {
    if a.createdOn == b.createdOn {
      assert a.id != b.id;
    }
  }

  /** The `(Id, CreatedOn)` rows of the `Batch` table, whatever their `Status`. */
  function Rows(batch: map<Guid, Catalog.BatchInfo>): (r: set<PageRow>)
    ensures forall x :: x in r <==> x.id in batch && batch[x.id].createdOn == x.createdOn
  {
    set id | id in batch :: PageRow(id, batch[id].createdOn)
  }

  lemma RowsCardinality(batch: map<Guid, Catalog.BatchInfo>)
    ensures |Rows(batch)| == |batch|
  {
    var f := (r: PageRow) => r.id;
    var rows := Rows(batch);
    var ids := set r | r in rows :: f(r);
    forall id | id in batch ensures id in ids {
      assert PageRow(id, batch[id].createdOn) in rows;
    }
    assert ids == batch.Keys;
    InjectiveImage(rows, f);
  }

  lemma {:induction false} InjectiveImage(s: set<PageRow>, f: PageRow -> Guid)
    requires forall a, b :: a in s && b in s && f(a) == f(b) ==> a == b
    ensures |set r | r in s :: f(r)| == |s|
    decreases |s|
  {
    if s != {} {
      var x :| x in s;
      var s' := s - {x};
      InjectiveImage(s', f);
      assert (set r | r in s :: f(r)) == (set r | r in s' :: f(r)) + {f(x)};
    }
  }

  /** A first row of a non-empty set: it precedes every other. */
  lemma {:induction false} FirstExists(key: Guid -> int, s: set<PageRow>)
    requires InjectiveKey(key) && s != {}
    ensures exists m :: IsFirst(key, s, m)
    decreases |s|
  {
    var y :| y in s;
    if s == {y} {
      assert IsFirst(key, s, y);
    } else {
      FirstExists(key, s - {y});
      var m :| IsFirst(key, s - {y}, m);
      PrecedesTotal(key, y, m);
      if Precedes(key, y, m) {
        forall x | x in s && x != y ensures Precedes(key, y, x) {
          if x != m {
            assert x in s - {y} && Precedes(key, m, x);
          }
        }
        assert IsFirst(key, s, y);
      } else {
        assert IsFirst(key, s, m);
      }
    }
  }

  /** `m` is a row of `s` that precedes every other row of `s`. */
  predicate IsFirst(key: Guid -> int, s: set<PageRow>, m: PageRow)
  {
    m in s && forall x :: x in s && x != m ==> Precedes(key, m, x)
  }

  /** The row `ORDER BY [CreatedOn] DESC, [Id] DESC` puts first. */
  function First(key: Guid -> int, s: set<PageRow>): (m: PageRow)
    requires InjectiveKey(key) && s != {}
    ensures m in s && forall x :: x in s && x != m ==> Precedes(key, m, x)
  {
    FirstExists(key, s);
    var m :| IsFirst(key, s, m);
    m
  }

  /** `SELECT TOP (n) ... ORDER BY [CreatedOn] DESC, [Id] DESC` over the rows `s`. */
  function TopN(key: Guid -> int, s: set<PageRow>, n: nat): seq<PageRow>
    requires InjectiveKey(key)
    decreases n
  {
    if n == 0 || s == {} then []
    else
      var m := First(key, s);
      [m] + TopN(key, s - {m}, n - 1)
  }

  /** Strictly descending under the query's order (so also free of duplicates). */
  predicate StrictlyDescending(key: Guid -> int, r: seq<PageRow>)
  {
    forall i, j :: 0 <= i < j < |r| ==> Precedes(key, r[i], r[j])
  }

  function Min(a: int, b: int): int
  {
    if a < b then a else b
  }

  /**
   * `TopN` returns `min(n, |s|)` rows of `s`, strictly descending, and
   * without gaps: a row of `s` it leaves out comes after every row it returns.
   */
  lemma TopNSpec(key: Guid -> int, s: set<PageRow>, n: nat)
    requires InjectiveKey(key)
    ensures var r := TopN(key, s, n);
      && |r| == Min(n, |s|)
      && (forall i :: 0 <= i < |r| ==> r[i] in s)
      && StrictlyDescending(key, r)
      && (forall x :: x in s && x !in r ==> forall i :: 0 <= i < |r| ==> Precedes(key, r[i], x))
  {
    TopNLength(key, s, n);
    TopNMembers(key, s, n);
    TopNDescending(key, s, n);
    TopNNoGaps(key, s, n);
  }

  lemma {:induction false} TopNLength(key: Guid -> int, s: set<PageRow>, n: nat)
    requires InjectiveKey(key)
    ensures |TopN(key, s, n)| == Min(n, |s|)
    decreases n
  {
    if n != 0 && s != {} {
      var m := First(key, s);
      TopNLength(key, s - {m}, n - 1);
      assert |s - {m}| == |s| - 1;
    }
  }

  lemma {:induction false} TopNMembers(key: Guid -> int, s: set<PageRow>, n: nat)
    requires InjectiveKey(key)
    ensures forall i :: 0 <= i < |TopN(key, s, n)| ==> TopN(key, s, n)[i] in s
    decreases n
  {
    if n != 0 && s != {} {
      var m := First(key, s);
      var r' := TopN(key, s - {m}, n - 1);
      TopNMembers(key, s - {m}, n - 1);
      var r := [m] + r';
      assert TopN(key, s, n) == r;
      forall i | 0 <= i < |r| ensures r[i] in s {
        if i > 0 {
          assert r[i] == r'[i - 1];
        }
      }
    }
  }

  lemma {:induction false} TopNDescending(key: Guid -> int, s: set<PageRow>, n: nat)
    requires InjectiveKey(key)
    ensures StrictlyDescending(key, TopN(key, s, n))
    decreases n
  {
    if n != 0 && s != {} {
      var m := First(key, s);
      var s' := s - {m};
      var r' := TopN(key, s', n - 1);
      TopNDescending(key, s', n - 1);
      TopNMembers(key, s', n - 1);
      var r := [m] + r';
      assert TopN(key, s, n) == r;
      forall i, j | 0 <= i < j < |r| ensures Precedes(key, r[i], r[j]) {
        assert r[j] == r'[j - 1];
        if i > 0 {
          assert r[i] == r'[i - 1];
        } else {
          assert r[j] in s';
        }
      }
    }
  }

  lemma {:induction false} TopNNoGaps(key: Guid -> int, s: set<PageRow>, n: nat)
    requires InjectiveKey(key)
    ensures var r := TopN(key, s, n);
      forall x :: x in s && x !in r ==> forall i :: 0 <= i < |r| ==> Precedes(key, r[i], x)
    decreases n
  {
    if n != 0 && s != {} {
      var m := First(key, s);
      var s' := s - {m};
      var r' := TopN(key, s', n - 1);
      TopNNoGaps(key, s', n - 1);
      var r := [m] + r';
      assert TopN(key, s, n) == r;
      forall x | x in s && x !in r ensures forall i :: 0 <= i < |r| ==> Precedes(key, r[i], x) {
        assert x in s' && x !in r';
        forall i | 0 <= i < |r| ensures Precedes(key, r[i], x) {
          if i > 0 {
            assert r[i] == r'[i - 1];
          }
        }
      }
    }
  }

  /** A shorter `TOP` returns a prefix of a longer one. */
  lemma {:induction false} TopNPrefix(key: Guid -> int, s: set<PageRow>, k: nat, n: nat)
    requires InjectiveKey(key) && k <= n
    ensures |TopN(key, s, k)| <= |TopN(key, s, n)|
    ensures TopN(key, s, k) == TopN(key, s, n)[..|TopN(key, s, k)|]
    decreases k
  {
    if k != 0 && s != {} {
      var m := First(key, s);
      TopNPrefix(key, s - {m}, k - 1, n - 1);
    }
  }

  /** A `TOP` at least as large as the table returns every row. */
  lemma {:induction false} TopNAll(key: Guid -> int, s: set<PageRow>, n: nat)
    requires InjectiveKey(key) && |s| <= n
    ensures forall x :: x in s ==> x in TopN(key, s, n)
    decreases n
  {
    if n != 0 && s != {} {
      var m := First(key, s);
      TopNAll(key, s - {m}, n - 1);
    }
  }

  /** The rows strictly after the cursor: the query's `WHERE` clause. */
  function After(key: Guid -> int, s: set<PageRow>, cursor: PageRow): (r: set<PageRow>)
    ensures forall x :: x in r <==> x in s && Precedes(key, cursor, x)
  {
    set x | x in s && ((x.createdOn < cursor.createdOn) || (x.createdOn == cursor.createdOn && key(x.id) < key(cursor.id)))
  }

  /** `GetBatchIdsPageAsync`'s query: the first page, or the page after the cursor `(lastCreatedOn, lastId)`. */
  function PageQuery(key: Guid -> int, batch: map<Guid, Catalog.BatchInfo>, pageSize: nat, cursor: Option<PageRow>): seq<PageRow>
    requires InjectiveKey(key)
  {
    match cursor
    case None => TopN(key, Rows(batch), pageSize)
    case Some(c) => TopN(key, After(key, Rows(batch), c), pageSize)
  }

  /** After the first row come exactly the others. */
  lemma AfterFirst(key: Guid -> int, s: set<PageRow>)
    requires InjectiveKey(key) && s != {}
    ensures After(key, s, First(key, s)) == s - {First(key, s)}
  {
    var top := First(key, s);
    assert !Precedes(key, top, top);
  }

  /** The first row is never after a later row, so it can be dropped before filtering. */
  lemma AfterWithoutFirst(key: Guid -> int, s: set<PageRow>, c: PageRow)
    requires InjectiveKey(key) && s != {} && c in s && c != First(key, s)
    ensures After(key, s, c) == After(key, s - {First(key, s)}, c)
  {
    var top := First(key, s);
    assert Precedes(key, top, c);
  }

  /** `TopN` unfolded once. */
  lemma TopNUnfold(key: Guid -> int, s: set<PageRow>, n: nat)
    requires InjectiveKey(key) && n > 0 && s != {}
    ensures TopN(key, s, n) == [First(key, s)] + TopN(key, s - {First(key, s)}, n - 1)
  {
  }

  /**
   * Keyset paging has no gaps and no repeats: the page after the last row of
   * the first `n` rows continues the order exactly, even when several rows
   * share a `CreatedOn`.
   */
  lemma {:induction false} NextPageContinues(key: Guid -> int, s: set<PageRow>, n: nat, m: nat)
    requires InjectiveKey(key) && n > 0 && s != {}
    ensures var first := TopN(key, s, n);
      first != [] && first + TopN(key, After(key, s, first[|first| - 1]), m) == TopN(key, s, n + m)
    decreases n
  {
    var top := First(key, s);
    var s' := s - {top};
    if n == 1 || s' == {} {
      FirstPageOfOne(key, s, n, m);
    } else {
      NextPageContinues(key, s', n - 1, m);
      var rest := TopN(key, s', n - 1);
      var last := rest[|rest| - 1];
      var later := TopN(key, After(key, s', last), m);
      FirstPageAfterTop(key, s, n, m);
      var first := TopN(key, s, n);
      assert TopN(key, After(key, s, first[|first| - 1]), m) == later;
      ConcatAssociative([top], rest, later);
    }
  }

  /**
   * A first page of more than one row is the first row followed by the
   * first page of the others; it ends on the same row, and the rows after
   * that row are the same with or without the first row.
   */
  lemma FirstPageAfterTop(key: Guid -> int, s: set<PageRow>, n: nat, m: nat)
    requires InjectiveKey(key) && n > 1 && s != {} && s - {First(key, s)} != {}
    ensures var s' := s - {First(key, s)};
      var rest := TopN(key, s', n - 1);
      var first := TopN(key, s, n);
      && rest != [] && first == [First(key, s)] + rest
      && first[|first| - 1] == rest[|rest| - 1]
      && After(key, s, rest[|rest| - 1]) == After(key, s', rest[|rest| - 1])
      && TopN(key, s, n + m) == [First(key, s)] + TopN(key, s', (n - 1) + m)
  {
    var top := First(key, s);
    var s' := s - {top};
    var rest := TopN(key, s', n - 1);
    TopNUnfold(key, s, n);
    TopNUnfold(key, s, n + m);
    assert rest != [] && rest[|rest| - 1] in s' by {
      TopNSpec(key, s', n - 1);
    }
    AfterWithoutFirst(key, s, rest[|rest| - 1]);
  }

  lemma ConcatAssociative<T>(a: seq<T>, b: seq<T>, c: seq<T>)
    ensures (a + b) + c == a + (b + c)
  {
  }

  lemma FirstPageOfOne(key: Guid -> int, s: set<PageRow>, n: nat, m: nat)
    requires InjectiveKey(key) && n > 0 && s != {}
    requires n == 1 || s - {First(key, s)} == {}
    ensures var first := TopN(key, s, n);
      first == [First(key, s)] && first + TopN(key, After(key, s, First(key, s)), m) == TopN(key, s, n + m)
  {
    var top := First(key, s);
    var s' := s - {top};
    TopNUnfold(key, s, n);
    TopNUnfold(key, s, n + m);
    AfterFirst(key, s);
    if s' == {} {
      assert TopN(key, s', n - 1) == [] && TopN(key, s', m) == [] && TopN(key, s', n + m - 1) == [];
    }
  }
}
