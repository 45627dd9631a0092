/**
  Grouping the rows of every shard by their group-by key: the rows in scan
  order, the bucket of rows for every key, and the keys in the order they were
  first seen.
 */
module Grouping {
  import opened Values
  import opened GroupKey

  // ---------------------------------------------------------------------------
  // Scanning every shard

  /** The rows read before the first scan error, and that error (if any). */
  datatype Scanned = Scanned(rows: seq<Row>, err: Option<Error>)

  /** Reads every row of every shard in shard order, stopping at the first
      shard whose scan fails. */
  function ScanUntilError(shards: seq<Shard>): (r: Scanned)
    ensures r.err.None? <==> forall i :: 0 <= i < |shards| ==> shards[i].scanError.None?
    ensures r.err.Some? ==> exists i :: 0 <= i < |shards| && shards[i].scanError == r.err
  {
    if shards == [] then Scanned([], None)
    else
      var n := |shards| - 1;
      var p := ScanUntilError(shards[..n]);
      assert forall i :: 0 <= i < n ==> shards[..n][i] == shards[i];
      if p.err.Some? then p
      else if shards[n].scanError.Some? then Scanned(p.rows, shards[n].scanError)
      else Scanned(p.rows + shards[n].rows, None)
  }

  /** Without scan errors, the rows are those of every shard, concatenated in
      shard order. */
  lemma {:induction false} ScanUntilErrorConcat(shards: seq<Shard>, i: int)
    requires 0 <= i < |shards| && ScanUntilError(shards[..i + 1]).err.None?
    ensures ScanUntilError(shards[..i]).err.None?
    ensures ScanUntilError(shards[..i + 1]).rows == ScanUntilError(shards[..i]).rows + shards[i].rows
  {
    assert shards[..i + 1][..i] == shards[..i];
  }

  /** The rows read from a prefix of the shards start the rows read from all. */
  lemma {:induction false} ScanUntilErrorPrefix(shards: seq<Shard>, i: int)
    requires 0 <= i <= |shards|
    ensures var p, w := ScanUntilError(shards[..i]).rows, ScanUntilError(shards).rows;
            |p| <= |w| && w[..|p|] == p
    decreases |shards|
  {
    if i == |shards| {
      assert shards[..i] == shards;
    } else {
      var n := |shards| - 1;
      assert shards[..n][..i] == shards[..i];
      ScanUntilErrorPrefix(shards[..n], i);
      var p, q, w := ScanUntilError(shards[..i]).rows, ScanUntilError(shards[..n]).rows, ScanUntilError(shards).rows;
      assert w[..|q|] == q;
      assert w[..|p|] == q[..|p|];
    }
  }

  /** A shard read without error appends its rows to those read before it. */
  lemma {:induction false} ScanStep(shards: seq<Shard>, i: int, groupCols: seq<ColumnInfo>)
    requires 0 <= i < |shards|
    requires ScanUntilError(shards[..i]).err.None? && shards[i].scanError.None?
    requires AllReadable(ScanUntilError(shards).rows, groupCols)
    ensures ScanUntilError(shards[..i + 1]) == Scanned(ScanUntilError(shards[..i]).rows + shards[i].rows, None)
    ensures AllReadable(ScanUntilError(shards[..i]).rows + shards[i].rows, groupCols)
  {
    assert shards[..i + 1][..i] == shards[..i];
    ScanUntilErrorPrefix(shards, i + 1);
    AllReadablePrefix(ScanUntilError(shards).rows, groupCols, |ScanUntilError(shards[..i + 1]).rows|);
  }

  /** After a failed scan, one more shard is not read. */
  lemma ScanErrorStep(shards: seq<Shard>)
    requires shards != [] && ScanUntilError(shards[..|shards| - 1]).err.Some?
    ensures ScanUntilError(shards) == ScanUntilError(shards[..|shards| - 1])
  {
  }

  /** A failed scan makes every longer list of shards fail the same way. */
  lemma {:induction false} ScanErrorPersists(shards: seq<Shard>, i: int)
    requires 0 <= i <= |shards| && ScanUntilError(shards[..i]).err.Some?
    ensures ScanUntilError(shards) == ScanUntilError(shards[..i])
    decreases |shards|
  {
    if i == |shards| {
      assert shards[..i] == shards;
    } else {
      var n := |shards| - 1;
      assert shards[..n][..i] == shards[..i];
      ScanErrorPersists(shards[..n], i);
      ScanErrorStep(shards);
    }
  }

  // ---------------------------------------------------------------------------
  // Keys

  /** Every group-by column's index is a position of the row. */
  predicate KeyReadable(row: Row, groupCols: seq<ColumnInfo>)
  {
    forall j :: 0 <= j < |groupCols| ==> 0 <= groupCols[j].index < |row|
  }

  predicate AllReadable(rows: seq<Row>, groupCols: seq<ColumnInfo>)
  {
    forall i :: 0 <= i < |rows| ==> KeyReadable(rows[i], groupCols)
  }

  lemma AllReadablePrefix(rows: seq<Row>, groupCols: seq<ColumnInfo>, n: int)
    requires AllReadable(rows, groupCols) && 0 <= n <= |rows|
    ensures AllReadable(rows[..n], groupCols)
  {
    assert forall i :: 0 <= i < n ==> rows[..n][i] == rows[i];
  }

  /** The key of a row: its values at the group-by columns, in their order. */
  function KeyOf(row: Row, groupCols: seq<ColumnInfo>): (k: Key)
    requires KeyReadable(row, groupCols)
  {
    seq(|groupCols|, j requires 0 <= j < |groupCols| => row[groupCols[j].index])
  }

  /** Collects the row's group-by values one column at a time. */
  method BuildKey(row: Row, groupCols: seq<ColumnInfo>) returns (k: Key)
    requires KeyReadable(row, groupCols)
    ensures |k| == |groupCols|
    ensures forall j :: 0 <= j < |groupCols| ==> k[j] == row[groupCols[j].index]
    ensures k == KeyOf(row, groupCols)
  {
    k := [];
    var j := 0;
    while j < |groupCols|
      invariant 0 <= j <= |groupCols|
      invariant |k| == j
      invariant forall m :: 0 <= m < j ==> k[m] == row[groupCols[m].index]
    {
      k := k + [row[groupCols[j].index]];
      j := j + 1;
    }
  }

  /** Keys of rows alike in their group-by values are equal, and only those. */
  lemma KeyOfEqual(x: Row, y: Row, groupCols: seq<ColumnInfo>)
    requires KeyReadable(x, groupCols) && KeyReadable(y, groupCols)
    ensures KeyOf(x, groupCols) == KeyOf(y, groupCols) <==>
            forall j :: 0 <= j < |groupCols| ==> x[groupCols[j].index] == y[groupCols[j].index]
  {
    if forall j :: 0 <= j < |groupCols| ==> x[groupCols[j].index] == y[groupCols[j].index] {
      assert forall j :: 0 <= j < |groupCols| ==> KeyOf(x, groupCols)[j] == KeyOf(y, groupCols)[j];
    } else {
      var j :| 0 <= j < |groupCols| && x[groupCols[j].index] != y[groupCols[j].index];
      assert KeyOf(x, groupCols)[j] != KeyOf(y, groupCols)[j];
    }
  }

  // ---------------------------------------------------------------------------
  // Grouping

  /** The buckets keyed by group key, and the keys in first-seen order. */
  datatype Grouping = Grouping(dataMap: map<Key, seq<Row>>, dataIndex: seq<Key>)

  /** Adds the rows one by one: a row whose key has a bucket joins it; any other
      row opens a bucket and appends its key to the order. */
  function Group(rows: seq<Row>, groupCols: seq<ColumnInfo>): Grouping
    requires AllReadable(rows, groupCols)
  {
    if rows == [] then Grouping(map[], [])
    else
      var n := |rows| - 1;
      assert forall i :: 0 <= i < n ==> rows[..n][i] == rows[i];
      var g := Group(rows[..n], groupCols);
      var k := KeyOf(rows[n], groupCols);
      if k in g.dataMap then Grouping(g.dataMap[k := g.dataMap[k] + [rows[n]]], g.dataIndex)
      else Grouping(g.dataMap[k := [rows[n]]], g.dataIndex + [k])
  }

  /** The rows whose key is `k`, in their order. */
  function Filter(rows: seq<Row>, groupCols: seq<ColumnInfo>, k: Key): (r: seq<Row>)
    requires AllReadable(rows, groupCols)
    ensures |r| <= |rows|
    ensures forall x :: x in r ==> x in rows && KeyReadable(x, groupCols) && KeyOf(x, groupCols) == k
  {
    if rows == [] then []
    else
      var n := |rows| - 1;
      assert forall i :: 0 <= i < n ==> rows[..n][i] == rows[i];
      var p := Filter(rows[..n], groupCols, k);
      if KeyOf(rows[n], groupCols) == k then p + [rows[n]] else p
  }

  /** Every row whose key is `k` is in its filtered list. */
  lemma {:induction false} FilterComplete(rows: seq<Row>, groupCols: seq<ColumnInfo>, k: Key, i: int)
    requires AllReadable(rows, groupCols)
    requires 0 <= i < |rows| && KeyOf(rows[i], groupCols) == k
    ensures rows[i] in Filter(rows, groupCols, k)
    decreases |rows|
  {
    var n := |rows| - 1;
    FilterLast(rows, groupCols, k);
    if i < n {
      assert rows[..n][i] == rows[i];
      FilterComplete(rows[..n], groupCols, k, i);
    }
  }

  /** The position of the first row whose key is `k`, or the number of rows when
      there is none. */
  function FirstIndex(rows: seq<Row>, groupCols: seq<ColumnInfo>, k: Key): (r: int)
    requires AllReadable(rows, groupCols)
    ensures 0 <= r <= |rows|
    ensures r < |rows| ==> KeyOf(rows[r], groupCols) == k
    ensures forall j :: 0 <= j < r ==> KeyOf(rows[j], groupCols) != k
  {
    if rows == [] then 0
    else
      var n := |rows| - 1;
      assert forall i :: 0 <= i < n ==> rows[..n][i] == rows[i];
      var p := FirstIndex(rows[..n], groupCols, k);
      if p < n then p else if KeyOf(rows[n], groupCols) == k then n else n + 1
  }

  /** One step of the grouping: the last row joins the grouping of the rows
      before it. */
  lemma GroupLast(rows: seq<Row>, groupCols: seq<ColumnInfo>)
    requires AllReadable(rows, groupCols) && rows != []
    ensures AllReadable(rows[..|rows| - 1], groupCols)
    ensures var n := |rows| - 1;
            var g := Group(rows[..n], groupCols);
            var x := KeyOf(rows[n], groupCols);
            Group(rows, groupCols) ==
              if x in g.dataMap then Grouping(g.dataMap[x := g.dataMap[x] + [rows[n]]], g.dataIndex)
              else Grouping(g.dataMap[x := [rows[n]]], g.dataIndex + [x])
  {
    var n := |rows| - 1;
    assert forall i :: 0 <= i < n ==> rows[..n][i] == rows[i];
  }

  /** The shape of a grouping: no bucket is empty, every listed key has a
      bucket, and there are at most as many keys as rows. */
  lemma {:induction false} GroupShape(rows: seq<Row>, groupCols: seq<ColumnInfo>)
    requires AllReadable(rows, groupCols)
    ensures var g := Group(rows, groupCols);
            |g.dataIndex| <= |rows| &&
            (forall k :: k in g.dataMap ==> g.dataMap[k] != []) &&
            (forall j :: 0 <= j < |g.dataIndex| ==> g.dataIndex[j] in g.dataMap)
    decreases |rows|
  {
    if rows != [] {
      GroupLast(rows, groupCols);
      GroupShape(rows[..|rows| - 1], groupCols);
    }
  }

  /** One step of the first-index search for the key `k`. */
  lemma FirstIndexLast(rows: seq<Row>, groupCols: seq<ColumnInfo>, k: Key)
    requires AllReadable(rows, groupCols) && rows != []
    ensures AllReadable(rows[..|rows| - 1], groupCols)
    ensures var n := |rows| - 1;
            var p := FirstIndex(rows[..n], groupCols, k);
            FirstIndex(rows, groupCols, k) ==
              if p < n then p else if KeyOf(rows[n], groupCols) == k then n else n + 1
  {
    var n := |rows| - 1;
    assert forall i :: 0 <= i < n ==> rows[..n][i] == rows[i];
  }

  /** One more row of `more` joins the grouping of `base` and the rows of
      `more` before it. */
  lemma GroupExtend(base: seq<Row>, more: seq<Row>, j: int, groupCols: seq<ColumnInfo>)
    requires AllReadable(base + more, groupCols) && 0 <= j < |more|
    ensures AllReadable(base + more[..j], groupCols) && AllReadable(base + more[..j + 1], groupCols)
    ensures KeyReadable(more[j], groupCols)
    ensures var g := Group(base + more[..j], groupCols);
            var x := KeyOf(more[j], groupCols);
            Group(base + more[..j + 1], groupCols) ==
              if x in g.dataMap then Grouping(g.dataMap[x := g.dataMap[x] + [more[j]]], g.dataIndex)
              else Grouping(g.dataMap[x := [more[j]]], g.dataIndex + [x])
  {
    var next := base + more[..j + 1];
    assert next == (base + more)[..|base| + j + 1];
    AllReadablePrefix(base + more, groupCols, |base| + j + 1);
    assert next[..|next| - 1] == base + more[..j];
    assert next[|next| - 1] == more[j];
    assert (base + more)[|base| + j] == more[j];
    GroupLast(next, groupCols);
  }

  /** The buckets and the order hold the same keys: the keys of the rows and no
      others. */
  lemma {:induction false} GroupKeysMembers(rows: seq<Row>, groupCols: seq<ColumnInfo>)
    requires AllReadable(rows, groupCols)
    ensures var g := Group(rows, groupCols);
            forall k :: k in g.dataMap <==> k in g.dataIndex
    ensures var g := Group(rows, groupCols);
            forall k :: k in g.dataMap <==> FirstIndex(rows, groupCols, k) < |rows|
    decreases |rows|
  {
    if rows != [] {
      var pre := rows[..|rows| - 1];
      GroupLast(rows, groupCols);
      GroupKeysMembers(pre, groupCols);
      var g' := Group(rows, groupCols);
      forall k ensures k in g'.dataMap <==> FirstIndex(rows, groupCols, k) < |rows| {
        FirstIndexLast(rows, groupCols, k);
      }
    }
  }

  /** The order lists the keys by their first row. */
  lemma {:induction false} GroupKeysOrder(rows: seq<Row>, groupCols: seq<ColumnInfo>)
    requires AllReadable(rows, groupCols)
    ensures var g := Group(rows, groupCols);
            forall i, j :: 0 <= i < j < |g.dataIndex| ==>
              FirstIndex(rows, groupCols, g.dataIndex[i]) < FirstIndex(rows, groupCols, g.dataIndex[j])
    decreases |rows|
  {
    if rows != [] {
      var n := |rows| - 1;
      var pre := rows[..n];
      GroupLast(rows, groupCols);
      GroupKeysOrder(pre, groupCols);
      GroupKeysMembers(pre, groupCols);
      var g := Group(pre, groupCols);
      var g' := Group(rows, groupCols);
      var x := KeyOf(rows[n], groupCols);
      forall i, j | 0 <= i < j < |g'.dataIndex|
        ensures FirstIndex(rows, groupCols, g'.dataIndex[i]) < FirstIndex(rows, groupCols, g'.dataIndex[j])
      {
        var a, b := g'.dataIndex[i], g'.dataIndex[j];
        FirstIndexLast(rows, groupCols, a);
        FirstIndexLast(rows, groupCols, b);
        assert a == g.dataIndex[i] && a in g.dataMap;
        if j < |g.dataIndex| {
          assert b == g.dataIndex[j] && b in g.dataMap;
        } else {
          assert b == x && x !in g.dataMap;
        }
      }
    }
  }

  /** The buckets and the order hold the same keys, the keys of the rows and no
      others, and the order lists the keys by their first row. */
  lemma GroupKeys(rows: seq<Row>, groupCols: seq<ColumnInfo>)
    requires AllReadable(rows, groupCols)
    ensures var g := Group(rows, groupCols);
            forall k :: k in g.dataMap <==> k in g.dataIndex
    ensures var g := Group(rows, groupCols);
            forall k :: k in g.dataMap <==> FirstIndex(rows, groupCols, k) < |rows|
    ensures var g := Group(rows, groupCols);
            forall i, j :: 0 <= i < j < |g.dataIndex| ==>
              FirstIndex(rows, groupCols, g.dataIndex[i]) < FirstIndex(rows, groupCols, g.dataIndex[j])
  {
    GroupKeysMembers(rows, groupCols);
    GroupKeysOrder(rows, groupCols);
  }

  /** Every row is in some bucket. */
  lemma GroupCovers(rows: seq<Row>, groupCols: seq<ColumnInfo>, i: int)
    requires AllReadable(rows, groupCols) && 0 <= i < |rows|
    ensures KeyOf(rows[i], groupCols) in Group(rows, groupCols).dataMap
  {
    GroupKeys(rows, groupCols);
    assert FirstIndex(rows, groupCols, KeyOf(rows[i], groupCols)) <= i;
  }

  /** The bucket of a key holds exactly the rows with that key, in scan order. */
  lemma {:induction false} GroupBucketIsFilter(rows: seq<Row>, groupCols: seq<ColumnInfo>)
    requires AllReadable(rows, groupCols)
    ensures var g := Group(rows, groupCols);
            forall k :: k in g.dataMap ==> g.dataMap[k] == Filter(rows, groupCols, k)
    decreases |rows|
  {
    if rows != [] {
      var n := |rows| - 1;
      var pre := rows[..n];
      GroupLast(rows, groupCols);
      GroupBucketIsFilter(pre, groupCols);
      GroupKeysMembers(pre, groupCols);
      var g := Group(pre, groupCols);
      var g' := Group(rows, groupCols);
      var x := KeyOf(rows[n], groupCols);
      forall k | k in g'.dataMap
        ensures g'.dataMap[k] == Filter(rows, groupCols, k)
      {
        FilterLast(rows, groupCols, k);
        if k == x && x !in g.dataMap {
          FilterEmpty(pre, groupCols, x);
        }
      }
    }
  }

  /** One step of the filter: the last row is kept when its key is `k`. */
  lemma FilterLast(rows: seq<Row>, groupCols: seq<ColumnInfo>, k: Key)
    requires AllReadable(rows, groupCols) && rows != []
    ensures AllReadable(rows[..|rows| - 1], groupCols)
    ensures var n := |rows| - 1;
            Filter(rows, groupCols, k) ==
              if KeyOf(rows[n], groupCols) == k then Filter(rows[..n], groupCols, k) + [rows[n]]
              else Filter(rows[..n], groupCols, k)
  {
    var n := |rows| - 1;
    assert forall i :: 0 <= i < n ==> rows[..n][i] == rows[i];
  }

  lemma {:induction false} FilterEmpty(rows: seq<Row>, groupCols: seq<ColumnInfo>, k: Key)
    requires AllReadable(rows, groupCols)
    requires FirstIndex(rows, groupCols, k) == |rows|
    ensures Filter(rows, groupCols, k) == []
    decreases |rows|
  {
    if rows != [] {
      var n := |rows| - 1;
      assert forall i :: 0 <= i < n ==> rows[..n][i] == rows[i];
      FilterEmpty(rows[..n], groupCols, k);
    }
  }

  /** A row belongs to the bucket of its key and to no other bucket. */
  lemma RowInExactlyOneBucket(rows: seq<Row>, groupCols: seq<ColumnInfo>, i: int)
    requires AllReadable(rows, groupCols) && 0 <= i < |rows|
    ensures var g, k := Group(rows, groupCols), KeyOf(rows[i], groupCols);
            k in g.dataMap && rows[i] in g.dataMap[k] &&
            forall k' :: k' in g.dataMap && rows[i] in g.dataMap[k'] ==> k' == k
  {
    GroupCovers(rows, groupCols, i);
    GroupBucketIsFilter(rows, groupCols);
    FilterComplete(rows, groupCols, KeyOf(rows[i], groupCols), i);
  }

  /** The sizes of the buckets listed in `ks`, added up. */
  function BucketSizes(m: map<Key, seq<Row>>, ks: seq<Key>): nat
    requires forall j :: 0 <= j < |ks| ==> ks[j] in m
  {
    if ks == [] then 0
    else
      var n := |ks| - 1;
      assert forall j :: 0 <= j < n ==> ks[..n][j] == ks[j];
      BucketSizes(m, ks[..n]) + |m[ks[n]]|
  }

  lemma {:induction false} BucketSizesUpdateOther(m: map<Key, seq<Row>>, ks: seq<Key>, k: Key, v: seq<Row>)
    requires forall j :: 0 <= j < |ks| ==> ks[j] in m
    requires k !in ks
    ensures BucketSizes(m[k := v], ks) == BucketSizes(m, ks)
    decreases |ks|
  {
    if ks != [] {
      var n := |ks| - 1;
      assert forall j :: 0 <= j < n ==> ks[..n][j] == ks[j];
      BucketSizesUpdateOther(m, ks[..n], k, v);
    }
  }

  lemma {:induction false} BucketSizesUpdateOne(m: map<Key, seq<Row>>, ks: seq<Key>, k: Key, v: seq<Row>)
    requires forall j :: 0 <= j < |ks| ==> ks[j] in m
    requires forall i, j :: 0 <= i < j < |ks| ==> ks[i] != ks[j]
    requires k in ks
    ensures BucketSizes(m[k := v], ks) == BucketSizes(m, ks) - |m[k]| + |v|
    decreases |ks|
  {
    var n := |ks| - 1;
    var pre := ks[..n];
    assert forall j :: 0 <= j < n ==> pre[j] == ks[j];
    if ks[n] == k {
      assert k !in pre;
      BucketSizesUpdateOther(m, pre, k, v);
    } else {
      assert k in pre by {
        var j :| 0 <= j < |ks| && ks[j] == k;
        assert j < n && pre[j] == k;
      }
      BucketSizesUpdateOne(m, pre, k, v);
    }
  }

  /** The order lists each key of the buckets exactly once. */
  lemma GroupIndexFacts(rows: seq<Row>, groupCols: seq<ColumnInfo>)
    requires AllReadable(rows, groupCols)
    ensures var g := Group(rows, groupCols);
            (forall k :: k in g.dataMap <==> k in g.dataIndex) &&
            (forall i, j :: 0 <= i < j < |g.dataIndex| ==> g.dataIndex[i] != g.dataIndex[j])
  {
    GroupKeys(rows, groupCols);
  }

  /** Listing one more key adds the size of its bucket. */
  lemma BucketSizesSnoc(m: map<Key, seq<Row>>, ks: seq<Key>, k: Key)
    requires forall j :: 0 <= j < |ks| ==> ks[j] in m
    requires k in m
    ensures forall j :: 0 <= j < |ks + [k]| ==> (ks + [k])[j] in m
    ensures BucketSizes(m, ks + [k]) == BucketSizes(m, ks) + |m[k]|
  {
    assert (ks + [k])[..|ks|] == ks;
  }

  /** One more row keeps the bucket sizes adding up to the rows read: it joins
      an existing bucket, or opens a one-row bucket whose key is listed last. */
  lemma GroupSizesStep(rows: seq<Row>, groupCols: seq<ColumnInfo>)
    requires AllReadable(rows, groupCols) && rows != []
    requires AllReadable(rows[..|rows| - 1], groupCols)
    requires var g := Group(rows[..|rows| - 1], groupCols);
             (forall j :: 0 <= j < |g.dataIndex| ==> g.dataIndex[j] in g.dataMap) &&
             BucketSizes(g.dataMap, g.dataIndex) == |rows| - 1
    ensures var g := Group(rows, groupCols);
            (forall j :: 0 <= j < |g.dataIndex| ==> g.dataIndex[j] in g.dataMap) &&
            BucketSizes(g.dataMap, g.dataIndex) == |rows|
  {
    GroupIndexFacts(rows, groupCols);
    var n := |rows| - 1;
    var pre := rows[..n];
    GroupLast(rows, groupCols);
    GroupIndexFacts(pre, groupCols);
    var g := Group(pre, groupCols);
    var x := KeyOf(rows[n], groupCols);
    if x in g.dataMap {
      BucketSizesUpdateOne(g.dataMap, g.dataIndex, x, g.dataMap[x] + [rows[n]]);
    } else {
      var m := g.dataMap[x := [rows[n]]];
      BucketSizesUpdateOther(g.dataMap, g.dataIndex, x, [rows[n]]);
      BucketSizesSnoc(m, g.dataIndex, x);
    }
  }

  /** No row is lost or counted twice: the buckets in first-seen order hold
      as many rows as were read. */
  lemma {:induction false} GroupSizes(rows: seq<Row>, groupCols: seq<ColumnInfo>)
    requires AllReadable(rows, groupCols)
    ensures var g := Group(rows, groupCols);
            (forall j :: 0 <= j < |g.dataIndex| ==> g.dataIndex[j] in g.dataMap) &&
            BucketSizes(g.dataMap, g.dataIndex) == |rows|
    decreases |rows|
  {
    GroupIndexFacts(rows, groupCols);
    if rows != [] {
      GroupLast(rows, groupCols);
      GroupSizes(rows[..|rows| - 1], groupCols);
      GroupSizesStep(rows, groupCols);
    }
  }
}
