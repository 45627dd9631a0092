/**
  The pieces both mergers share: the aggregator interface they consume, the
  evaluation of every aggregator over one batch of rows, closing every shard
  source, and hiding the synthetic columns of the AVG rewrite from the column
  types.
 */
module MergerCursor {
  import opened Values

  /** The aggregator interface: a name tag ("COUNT", "AVG", ...), the column
      descriptor, and the function that merges one batch of shard rows. */
  datatype Aggregator = Aggregator(name: string, info: ColumnInfo, aggregate: seq<Row> -> Result<Value>)

  // ---------------------------------------------------------------------------
  // Column names and AVG positions

  /** The column index of every aggregator named "AVG", in declaration order. */
  function AvgIndexes(aggs: seq<Aggregator>): (r: seq<int>)
    ensures |r| <= |aggs|
    ensures forall x :: x in r <==>
              exists i :: 0 <= i < |aggs| && aggs[i].name == "AVG" && aggs[i].info.index == x
  {
    if aggs == [] then []
    else
      var p := AvgIndexes(aggs[..|aggs| - 1]);
      var last := aggs[|aggs| - 1];
      if last.name == "AVG" then p + [last.info.index] else p
  }

  /** AVG positions are collected in order: those of a concatenation are those
      of the first part followed by those of the second. */
  lemma {:induction false} AvgIndexesConcat(a: seq<Aggregator>, b: seq<Aggregator>)
    ensures AvgIndexes(a + b) == AvgIndexes(a) + AvgIndexes(b)
    decreases |b|
  {
    if b == [] {
      assert a + b == a;
    } else {
      var b' := b[..|b| - 1];
      assert (a + b)[..|a + b| - 1] == a + b';
      assert (a + b)[|a + b| - 1] == b[|b| - 1];
      AvgIndexesConcat(a, b');
    }
  }

  /** A single aggregator contributes its index exactly when it is an AVG. */
  lemma AvgIndexesSingle(g: Aggregator)
    ensures AvgIndexes([g]) == if g.name == "AVG" then [g.info.index] else []
  {
    assert [g][..0] == [];
  }

  // ---------------------------------------------------------------------------
  // Evaluating every aggregator over one batch

  /** The values of the aggregators that succeeded before the first failure,
      and that failure (if any). */
  datatype Evaluation = Evaluation(values: seq<Value>, failure: Option<Error>)

  function Evaluate(aggs: seq<Aggregator>, rows: seq<Row>): (e: Evaluation)
    ensures |e.values| <= |aggs|
    ensures forall k :: 0 <= k < |e.values| ==> aggs[k].aggregate(rows) == Success(e.values[k])
    ensures e.failure.None? ==> |e.values| == |aggs|
    ensures e.failure.Some? ==>
              |e.values| < |aggs| && aggs[|e.values|].aggregate(rows) == Failure(e.failure.value)
  {
    if aggs == [] then Evaluation([], None)
    else
      var p := Evaluate(aggs[..|aggs| - 1], rows);
      if p.failure.Some? then p
      else match aggs[|aggs| - 1].aggregate(rows)
        case Failure(err) => Evaluation(p.values, Some(err))
        case Success(v) => Evaluation(p.values + [v], None)
  }

  /** Evaluation fails exactly when some aggregator fails. */
  lemma EvaluateSucceeds(aggs: seq<Aggregator>, rows: seq<Row>)
    ensures Evaluate(aggs, rows).failure.None? <==>
            forall k :: 0 <= k < |aggs| ==> aggs[k].aggregate(rows).Success?
  {
  }

  /** Once an aggregator of a prefix fails, the rest are never evaluated. */
  lemma {:induction false} EvaluateFailurePersists(aggs: seq<Aggregator>, rows: seq<Row>, k: int)
    requires 0 <= k <= |aggs| && Evaluate(aggs[..k], rows).failure.Some?
    ensures Evaluate(aggs, rows) == Evaluate(aggs[..k], rows)
    decreases |aggs|
  {
    if k < |aggs| {
      var n := |aggs| - 1;
      assert aggs[..n][..k] == aggs[..k];
      EvaluateFailurePersists(aggs[..n], rows, k);
    } else {
      assert aggs[..k] == aggs;
    }
  }

  // ---------------------------------------------------------------------------
  // Closing every shard source

  /** The errors the shard sources report when closed, in shard order. */
  function CloseFailures(sources: seq<Shard>): (r: seq<Error>)
    ensures |r| <= |sources|
    ensures forall i :: 0 <= i < |sources| && sources[i].closeError.Some? ==>
              sources[i].closeError.value in r
    ensures forall e :: e in r ==> exists i :: 0 <= i < |sources| && sources[i].closeError == Some(e)
  {
    if sources == [] then []
    else
      var p := CloseFailures(sources[..|sources| - 1]);
      match sources[|sources| - 1].closeError
      case None => p
      case Some(e) => p + [e]
  }

  /** Closes every source, whatever the others report, and combines all the
      failures. */
  method CloseAll(sources: seq<Shard>) returns (errs: seq<Error>)
    ensures errs == CloseFailures(sources)
  {
    errs := [];
    var i := 0;
    while i < |sources|
      invariant 0 <= i <= |sources|
      invariant errs == CloseFailures(sources[..i])
    {
      assert sources[..i + 1][..i] == sources[..i];
      var err := sources[i].closeError;
      if err.Some? {
        errs := errs + [err.value];
      }
      i := i + 1;
    }
    assert sources[..i] == sources;
  }

  // ---------------------------------------------------------------------------
  // Hiding the AVG rewrite's synthetic columns

  /** The bounds under which every slice `ts[prev:idx+1]` of the collapse loop
      is legal in Go (otherwise the slice expression panics). */
  predicate SliceableFrom(n: int, avg: seq<int>, prev: int)
  {
    avg == [] || (prev <= avg[0] + 1 <= n && SliceableFrom(n, avg[1..], avg[0] + 3))
  }

  /** The collapse loop as written: for each AVG index, the columns from the
      previous cut up to and including the AVG column; nothing after the last
      AVG column's synthetic pair. */
  function CollapseAsWrittenFrom<T>(ts: seq<T>, avg: seq<int>, prev: int): (r: seq<T>)
    requires 0 <= prev && SliceableFrom(|ts|, avg, prev)
    ensures avg == [] ==> r == []
    ensures avg != [] ==> |r| == avg[|avg| - 1] + 1 - prev - 2 * (|avg| - 1)
    decreases |avg|
  {
    if avg == [] then []
    else ts[prev..avg[0] + 1] + CollapseAsWrittenFrom(ts, avg[1..], avg[0] + 3)
  }

  /** With AVG columns, the loop as written ends at the last AVG column: the
      result is as long as the columns up to it, less the synthetic pairs
      before it, whatever follows. */
  function CollapseAsWritten<T>(ts: seq<T>, avg: seq<int>): (r: seq<T>)
    requires SliceableFrom(|ts|, avg, 0)
    ensures avg == [] ==> r == ts
    ensures avg != [] ==> |r| == avg[|avg| - 1] + 1 - 2 * (|avg| - 1)
  {
    if |avg| == 0 then ts else CollapseAsWrittenFrom(ts, avg, 0)
  }

  /** An aggregate row `AVG(a), COUNT(b)` whose shard columns are the AVG column,
      its synthetic SUM and COUNT, and COUNT(b): the loop as written keeps one
      column type for two visible columns, losing COUNT(b)'s. */
  lemma CollapseAsWrittenDropsTrailingColumns()
    ensures var ts := [ColumnType("avg_a"), ColumnType("sum_a"), ColumnType("count_a"), ColumnType("count_b")];
            CollapseAsWritten(ts, [0]) == [ColumnType("avg_a")]
  {
  }

  /** The bounds under which the corrected collapse is legal: each slice as in
      the loop, and the final tail `ts[prev:]` too. */
  predicate Layout(n: int, avg: seq<int>, prev: int)
  {
    if avg == [] then prev <= n
    else prev <= avg[0] + 1 && Layout(n, avg[1..], avg[0] + 3)
  }

  lemma {:induction false} LayoutBound(n: int, avg: seq<int>, prev: int)
    requires Layout(n, avg, prev)
    ensures prev <= n
    ensures avg != [] ==> avg[0] + 3 <= n
    decreases |avg|
  {
    if avg != [] {
      LayoutBound(n, avg[1..], avg[0] + 3);
    }
  }

  /** The collapse as intended: the columns up to each AVG column, its two
      synthetic columns skipped, and every column after the last pair kept. */
  function CollapseFrom<T>(ts: seq<T>, avg: seq<int>, prev: int): seq<T>
    requires 0 <= prev && Layout(|ts|, avg, prev)
    decreases |avg|
  {
    LayoutBound(|ts|, avg, prev);
    if avg == [] then ts[prev..]
    else ts[prev..avg[0] + 1] + CollapseFrom(ts, avg[1..], avg[0] + 3)
  }

  function Collapse<T>(ts: seq<T>, avg: seq<int>): (r: seq<T>)
    requires Layout(|ts|, avg, 0)
    ensures avg == [] ==> r == ts
  {
    CollapseFrom(ts, avg, 0)
  }

  /** Each AVG column hides exactly two columns. */
  lemma {:induction false} CollapseFromLength<T>(ts: seq<T>, avg: seq<int>, prev: int)
    requires 0 <= prev && Layout(|ts|, avg, prev)
    ensures |CollapseFrom(ts, avg, prev)| == |ts| - prev - 2 * |avg|
    decreases |avg|
  {
    LayoutBound(|ts|, avg, prev);
    if avg != [] {
      CollapseFromLength(ts, avg[1..], avg[0] + 3);
    }
  }

  lemma CollapseLength<T>(ts: seq<T>, avg: seq<int>)
    requires Layout(|ts|, avg, 0)
    ensures |Collapse(ts, avg)| == |ts| - 2 * |avg|
  {
    CollapseFromLength(ts, avg, 0);
  }

  /** The example of CollapseAsWrittenDropsTrailingColumns, collapsed as
      intended: one column type per visible column. */
  lemma CollapseKeepsTrailingColumns()
    ensures var ts := [ColumnType("avg_a"), ColumnType("sum_a"), ColumnType("count_a"), ColumnType("count_b")];
            Collapse(ts, [0]) == [ColumnType("avg_a"), ColumnType("count_b")]
  {
    var ts := [ColumnType("avg_a"), ColumnType("sum_a"), ColumnType("count_a"), ColumnType("count_b")];
    assert [0][1..] == [];
    assert CollapseFrom(ts, [], 3) == [ColumnType("count_b")];
  }

  /** AVG indexes in increasing order, each followed by its two synthetic
      columns before the next one. */
  predicate Spaced(avg: seq<int>)
  {
    forall i, j :: 0 <= i < j < |avg| ==> avg[i] + 3 <= avg[j]
  }

  /** Position `p` holds one of the two synthetic columns of some AVG column. */
  predicate Synthetic(avg: seq<int>, p: int)
  {
    (p - 1) in avg || (p - 2) in avg
  }

  /** Independent reference: the columns from position `p` on that are not
      synthetic. */
  function Visible<T>(ts: seq<T>, avg: seq<int>, p: nat): seq<T>
    decreases |ts| - p
  {
    if p >= |ts| then []
    else if Synthetic(avg, p) then Visible(ts, avg, p + 1)
    else [ts[p]] + Visible(ts, avg, p + 1)
  }

  lemma {:induction false} VisibleRange<T>(ts: seq<T>, avg: seq<int>, p: nat, q: nat)
    requires p <= q <= |ts|
    requires forall x :: p <= x < q ==> !Synthetic(avg, x)
    ensures Visible(ts, avg, p) == ts[p..q] + Visible(ts, avg, q)
    decreases q - p
  {
    if p < q {
      VisibleRange(ts, avg, p + 1, q);
      assert Visible(ts, avg, p) == [ts[p]] + Visible(ts, avg, p + 1);
      assert [ts[p]] + ts[p + 1..q] == ts[p..q];
    } else {
      assert ts[p..q] == [];
    }
  }

  /** No column between the previous cut and the next AVG column is synthetic. */
  lemma SegmentVisible(all: seq<int>, k: nat, prev: int, x: int)
    requires Spaced(all) && k < |all|
    requires forall j :: 0 <= j < k ==> all[j] + 3 <= prev
    requires prev <= x <= all[k]
    ensures !Synthetic(all, x)
  {
    forall j | 0 <= j < |all| ensures all[j] != x - 1 && all[j] != x - 2 {
      if j > k {
        assert all[k] + 3 <= all[j];
      }
    }
  }

  /** After the last AVG pair nothing is synthetic. */
  lemma TailVisible<T>(ts: seq<T>, all: seq<int>, prev: nat)
    requires prev <= |ts|
    requires forall j :: 0 <= j < |all| ==> all[j] + 3 <= prev
    ensures ts[prev..] == Visible(ts, all, prev)
  {
    forall x | prev <= x < |ts| ensures !Synthetic(all, x) {
    }
    VisibleRange(ts, all, prev, |ts|);
    assert ts[prev..|ts|] == ts[prev..];
  }

  /** The two columns after an AVG column are skipped. */
  lemma SkipPair<T>(ts: seq<T>, all: seq<int>, a: nat)
    requires a in all && a + 3 <= |ts|
    ensures Visible(ts, all, a + 1) == Visible(ts, all, a + 3)
  {
    assert Synthetic(all, a + 1) && Synthetic(all, a + 2);
  }

  lemma {:induction false} CollapseFromIsVisible<T>(ts: seq<T>, all: seq<int>, k: nat, prev: nat)
    requires Spaced(all) && k <= |all|
    requires Layout(|ts|, all[k..], prev)
    requires k < |all| ==> prev <= all[k]
    requires forall j :: 0 <= j < k ==> all[j] + 3 <= prev
    ensures CollapseFrom(ts, all[k..], prev) == Visible(ts, all, prev)
    decreases |all| - k
  {
    if k == |all| {
      LayoutBound(|ts|, all[k..], prev);
      assert all[k..] == [];
      TailVisible(ts, all, prev);
    } else {
      CollapseFromUnfold(ts, all, k, prev);
      NextCut(all, k, prev);
      CollapseFromIsVisible(ts, all, k + 1, all[k] + 3);
      CollapseStepIsVisible(ts, all, k, prev);
    }
  }

  /** After the `k`-th AVG pair, every earlier AVG pair lies before the cut and
      the next AVG column after it. */
  lemma NextCut(all: seq<int>, k: nat, prev: int)
    requires Spaced(all) && k < |all|
    requires forall j :: 0 <= j < k ==> all[j] + 3 <= prev
    ensures forall j :: 0 <= j < k + 1 ==> all[j] + 3 <= all[k] + 3
    ensures k + 1 < |all| ==> all[k] + 3 <= all[k + 1]
  {
  }

  /** The step of the corrected collapse keeps the visible columns, given that
      the rest of the collapse does. */
  lemma CollapseStepIsVisible<T>(ts: seq<T>, all: seq<int>, k: nat, prev: nat)
    requires Spaced(all) && k < |all| && prev <= all[k]
    requires forall j :: 0 <= j < k ==> all[j] + 3 <= prev
    requires Layout(|ts|, all[k..], prev)
    requires Layout(|ts|, all[k + 1..], all[k] + 3) && all[k] + 3 <= |ts|
    requires CollapseFrom(ts, all[k + 1..], all[k] + 3) == Visible(ts, all, all[k] + 3)
    ensures CollapseFrom(ts, all[k..], prev) == Visible(ts, all, prev)
  {
    CollapseFromUnfold(ts, all, k, prev);
    SegmentStep(ts, all, k, prev);
  }

  /** One step of the corrected collapse, from the `k`-th AVG column on. */
  lemma CollapseFromUnfold<T>(ts: seq<T>, all: seq<int>, k: nat, prev: nat)
    requires k < |all| && Layout(|ts|, all[k..], prev)
    ensures prev <= all[k] + 1 && all[k] + 3 <= |ts|
    ensures Layout(|ts|, all[k + 1..], all[k] + 3)
    ensures CollapseFrom(ts, all[k..], prev) == ts[prev..all[k] + 1] + CollapseFrom(ts, all[k + 1..], all[k] + 3)
  {
    var rest := all[k..];
    assert rest[0] == all[k] && rest[1..] == all[k + 1..];
    LayoutBound(|ts|, rest, prev);
  }

  /** The visible columns from the previous cut on: those up to the next AVG
      column, then the visible columns after its synthetic pair. */
  lemma SegmentStep<T>(ts: seq<T>, all: seq<int>, k: nat, prev: nat)
    requires Spaced(all) && k < |all| && prev <= all[k] && all[k] + 3 <= |ts|
    requires forall j :: 0 <= j < k ==> all[j] + 3 <= prev
    ensures Visible(ts, all, prev) == ts[prev..all[k] + 1] + Visible(ts, all, all[k] + 3)
  {
    var a := all[k];
    forall x | prev <= x < a + 1 ensures !Synthetic(all, x) {
      SegmentVisible(all, k, prev, x);
    }
    VisibleRange(ts, all, prev, a + 1);
    SkipPair(ts, all, a);
  }

  /** The intended collapse keeps exactly the non-synthetic columns, in order. */
  lemma CollapseIsVisible<T>(ts: seq<T>, avg: seq<int>)
    requires Spaced(avg) && Layout(|ts|, avg, 0)
    requires avg != [] ==> 0 <= avg[0]
    ensures Collapse(ts, avg) == Visible(ts, avg, 0)
  {
    assert avg[0..] == avg;
    CollapseFromIsVisible(ts, avg, 0, 0);
  }

  /** Collapses a column-type list the way the mergers' ColumnTypes loop does,
      with the columns after the last AVG pair kept. */
  method CollapseColumnTypes(ts: seq<ColumnType>, avgIndexes: seq<int>) returns (v: seq<ColumnType>)
    requires Layout(|ts|, avgIndexes, 0)
    ensures v == Collapse(ts, avgIndexes)
  {
    if |avgIndexes| == 0 {
      return ts;
    }
    v := [];
    var prev := 0;
    var i := 0;
    while i < |avgIndexes|
      invariant 0 <= i <= |avgIndexes|
      invariant 0 <= prev && Layout(|ts|, avgIndexes[i..], prev)
      invariant v + CollapseFrom(ts, avgIndexes[i..], prev) == Collapse(ts, avgIndexes)
    {
      var idx := avgIndexes[i];
      assert avgIndexes[i..][0] == idx && avgIndexes[i..][1..] == avgIndexes[i + 1..];
      LayoutBound(|ts|, avgIndexes[i..], prev);
      v := v + ts[prev..idx + 1];
      prev := idx + 3;
      i := i + 1;
    }
    LayoutBound(|ts|, avgIndexes[i..], prev);
    assert avgIndexes[i..] == [];
    v := v + ts[prev..];
  }
}
