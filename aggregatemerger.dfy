/**
  The merger for aggregate queries without GROUP BY: every shard returns one
  row of partial aggregates, and the merged cursor yields exactly one row,
  one value per aggregator.
 */
module AggregateMerger {
  import opened Values
  import opened MergerCursor

  // ---------------------------------------------------------------------------
  // Reading one row from every shard

  /** What scanning the next row of a shard gives: the scan error it reports,
      AggregateHasEmptyRows when it has no row, or its first row. */
  function FirstRow(s: Shard): (r: Result<Row>)
    ensures s.scanError.Some? ==> r == Failure(s.scanError.value)
    ensures s.scanError.None? && s.rows == [] ==> r == Failure(AggregateHasEmptyRows)
    ensures r.Success? <==> s.scanError.None? && s.rows != []
    ensures r.Success? ==> r.value == s.rows[0]
  {
    if s.scanError.Some? then Failure(s.scanError.value)
    else if s.rows == [] then Failure(AggregateHasEmptyRows)
    else Success(s.rows[0])
  }

  /** One row from every shard, in shard order, or the error of the first shard
      that does not give one. */
  function FirstRows(shards: seq<Shard>): (r: Result<seq<Row>>)
    ensures r.Success? <==> forall i :: 0 <= i < |shards| ==> FirstRow(shards[i]).Success?
    ensures r.Success? ==> |r.value| == |shards|
    ensures r.Success? ==> forall i :: 0 <= i < |shards| ==> r.value[i] == shards[i].rows[0]
  {
    if shards == [] then Success([])
    else
      var n := |shards| - 1;
      var p := FirstRows(shards[..n]);
      assert forall i :: 0 <= i < n ==> shards[..n][i] == shards[i];
      if p.Failure? then p
      else match FirstRow(shards[n])
        case Failure(e) => Failure(e)
        case Success(row) => Success(p.value + [row])
  }

  /** The shard that decides a failure is the first one that gives no row. */
  lemma {:induction false} FirstRowsFirstFailure(shards: seq<Shard>, k: int)
    requires 0 <= k < |shards| && FirstRow(shards[k]).Failure?
    requires forall i :: 0 <= i < k ==> FirstRow(shards[i]).Success?
    ensures FirstRows(shards) == Failure(FirstRow(shards[k]).error)
    decreases |shards|
  {
    var n := |shards| - 1;
    if k < n {
      assert forall i :: 0 <= i < n ==> shards[..n][i] == shards[i];
      FirstRowsFirstFailure(shards[..n], k);
    } else {
      assert forall i :: 0 <= i < n ==> shards[..n][i] == shards[i];
    }
  }

  /** The one merged row: every aggregator over the shards' first rows, or the
      first error met on the way. It succeeds exactly when every shard gives a
      row and every aggregator succeeds over those rows, and then holds one
      value per aggregator; a failure after every shard gave a row is the
      error of the first failing aggregator. */
  function MergeRow(shards: seq<Shard>, aggs: seq<Aggregator>): (r: Result<seq<Value>>)
    ensures r.Success? <==>
              FirstRows(shards).Success? &&
              forall k :: 0 <= k < |aggs| ==> aggs[k].aggregate(FirstRows(shards).value).Success?
    ensures r.Success? ==>
              |r.value| == |aggs| &&
              forall k :: 0 <= k < |aggs| ==> aggs[k].aggregate(FirstRows(shards).value) == Success(r.value[k])
    ensures FirstRows(shards).Failure? ==> r == Failure(FirstRows(shards).error)
    ensures FirstRows(shards).Success? && r.Failure? ==>
              var data := FirstRows(shards).value;
              exists k :: 0 <= k < |aggs| && aggs[k].aggregate(data) == Failure(r.error) &&
                          forall j :: 0 <= j < k ==> aggs[j].aggregate(data).Success?
  {
    match FirstRows(shards)
    case Failure(e) => Failure(e)
    case Success(data) =>
      var ev := Evaluate(aggs, data);
      EvaluateSucceeds(aggs, data);
      if ev.failure.Some? then
        assert aggs[|ev.values|].aggregate(data) == Failure(ev.failure.value);
        Failure(ev.failure.value)
      else Success(ev.values)
  }

  /** An empty shard after shards that all gave a row makes the merge fail with
      AggregateHasEmptyRows. */
  lemma EmptyShardFails(shards: seq<Shard>, aggs: seq<Aggregator>, k: int)
    requires 0 <= k < |shards| && shards[k].scanError.None? && shards[k].rows == []
    requires forall i :: 0 <= i < k ==> FirstRow(shards[i]).Success?
    ensures MergeRow(shards, aggs) == Failure(AggregateHasEmptyRows)
  {
    FirstRowsFirstFailure(shards, k);
  }

  // ---------------------------------------------------------------------------
  // The merger

  datatype Merger = Merger(aggregators: seq<Aggregator>, colNames: seq<string>, avgIndexes: seq<int>)
  {
    /** Starts a cursor over one row source per shard. */
    method Merge(results: seq<Option<Shard>>) returns (r: Result<Rows>)
      ensures |results| == 0 ==> r == Failure(EmptyRows)
      ensures |results| > 0 && None in results ==> r == Failure(RowsIsNull)
      ensures |results| > 0 && None !in results ==>
                r.Success? && fresh(r.value) && r.value.Valid() &&
                r.value.rowsList == Present(results) &&
                r.value.aggregators == aggregators && r.value.avgIndexes == avgIndexes &&
                r.value.columns == colNames &&
                !r.value.closed && !r.value.nextCalled && r.value.cur == [] && r.value.lastErr == None
    {
      if |results| == 0 {
        return Failure(EmptyRows);
      }
      if None in results {
        return Failure(RowsIsNull);
      }
      var rows := new Rows(Present(results), aggregators, avgIndexes, colNames);
      return Success(rows);
    }
  }

  /** Builds the merger: the visible column names and the AVG positions, both in
      aggregator order. */
  method NewMerger(aggregators: seq<Aggregator>) returns (m: Merger)
    ensures m.aggregators == aggregators
    ensures |m.colNames| == |aggregators|
    ensures forall i :: 0 <= i < |aggregators| ==> m.colNames[i] == aggregators[i].info.selectName
    ensures m.avgIndexes == AvgIndexes(aggregators)
  {
    var cols: seq<string> := [];
    var idx: seq<int> := [];
    var i := 0;
    while i < |aggregators|
      invariant 0 <= i <= |aggregators|
      invariant |cols| == i
      invariant forall j :: 0 <= j < i ==> cols[j] == aggregators[j].info.selectName
      invariant idx == AvgIndexes(aggregators[..i])
    {
      assert aggregators[..i + 1][..i] == aggregators[..i];
      var agg := aggregators[i];
      var info := agg.info;
      if agg.name == "AVG" {
        idx := idx + [info.index];
      }
      cols := cols + [info.selectName];
      i := i + 1;
    }
    assert aggregators[..i] == aggregators;
    m := Merger(aggregators, cols, idx);
  }

  // ---------------------------------------------------------------------------
  // The cursor

  class Rows {
    const rowsList: seq<Shard>
    const aggregators: seq<Aggregator>
    const avgIndexes: seq<int>
    const columns: seq<string>
    var closed: bool
    var lastErr: Option<Error>
    var cur: seq<Value>
    var nextCalled: bool

    /** Errors close the cursor; before the first Next nothing is recorded;
        after it, the cursor holds the merged row or the error that replaced it. */
    ghost predicate Valid()
      reads this
    {
      Consistent() && (lastErr.Some? ==> closed)
    }

    /** What Valid asks of the recorded row and error alone. */
    ghost predicate Consistent()
      reads this
    {
      && |rowsList| > 0
      && (!nextCalled ==> cur == [] && lastErr.None?)
      && (nextCalled ==>
            match MergeRow(rowsList, aggregators)
            case Success(row) => lastErr.None? && cur == row
            case Failure(e) => lastErr == Some(e) && cur == [])
    }

    constructor (rowsList: seq<Shard>, aggregators: seq<Aggregator>, avgIndexes: seq<int>, columns: seq<string>)
      requires |rowsList| > 0
      ensures Valid()
      ensures this.rowsList == rowsList && this.aggregators == aggregators
      ensures this.avgIndexes == avgIndexes && this.columns == columns
      ensures !closed && !nextCalled && cur == [] && lastErr == None
    {
      this.rowsList := rowsList;
      this.aggregators := aggregators;
      this.avgIndexes := avgIndexes;
      this.columns := columns;
      closed := false;
      lastErr := None;
      cur := [];
      nextCalled := false;
    }

    /** The shard-level column types with the AVG rewrite's synthetic columns
        hidden. */
    method ColumnTypes() returns (r: Result<seq<ColumnType>>)
      requires |rowsList| > 0
      requires !closed && rowsList[0].columnTypes.Success? ==>
                 Layout(|rowsList[0].columnTypes.value|, avgIndexes, 0)
      ensures closed ==> r == Failure(RowsClosed)
      ensures !closed && rowsList[0].columnTypes.Failure? ==> r == rowsList[0].columnTypes
      ensures !closed && rowsList[0].columnTypes.Success? ==>
                r == Success(Collapse(rowsList[0].columnTypes.value, avgIndexes))
    {
      if closed {
        return Failure(RowsClosed);
      }
      var ts := rowsList[0].columnTypes;
      if ts.Failure? {
        return ts;
      }
      var v := CollapseColumnTypes(ts.value, avgIndexes);
      return Success(v);
    }

    /** Advances to the merged row: true exactly once, on a first call that
        gathers a row from every shard and evaluates every aggregator. */
    method Next() returns (more: bool)
      requires Valid()
      modifies this
      ensures Valid()
      ensures old(nextCalled) ==> nextCalled
      ensures more <==> !old(closed) && !old(nextCalled) && MergeRow(rowsList, aggregators).Success?
      ensures more ==> !closed && cur == MergeRow(rowsList, aggregators).value
      ensures old(closed) ==>
                closed && lastErr == old(lastErr) && cur == old(cur) && nextCalled == old(nextCalled)
      ensures !old(closed) ==> nextCalled && (closed <==> !more)
      ensures !old(closed) && old(nextCalled) ==> cur == old(cur) && lastErr == old(lastErr)
    {
      if closed || lastErr.Some? {
        return false;
      }
      if nextCalled {
        var _ := Close();
        return false;
      }
      var rowsData := GetSqlRowsData();
      nextCalled := true;
      if rowsData.Failure? {
        lastErr := Some(rowsData.error);
        var _ := Close();
        return false;
      }
      var res := ExecuteAggregateCalculation(rowsData.value);
      if res.Failure? {
        lastErr := Some(res.error);
        var _ := Close();
        return false;
      }
      cur := res.value;
      return true;
    }

    /** Every aggregator over the gathered rows, in order, stopping at the
        first failure. */
    method ExecuteAggregateCalculation(rowsData: seq<Row>) returns (r: Result<seq<Value>>)
      ensures var ev := Evaluate(aggregators, rowsData);
              if ev.failure.Some? then r == Failure(ev.failure.value) else r == Success(ev.values)
    {
      var res: seq<Value> := [];
      var i := 0;
      while i < |aggregators|
        invariant 0 <= i <= |aggregators|
        invariant Evaluate(aggregators[..i], rowsData) == Evaluation(res, None)
      {
        assert aggregators[..i + 1][..i] == aggregators[..i];
        var val := aggregators[i].aggregate(rowsData);
        if val.Failure? {
          EvaluateFailurePersists(aggregators, rowsData, i + 1);
          return Failure(val.error);
        }
        res := res + [val.value];
        i := i + 1;
      }
      assert aggregators[..i] == aggregators;
      return Success(res);
    }

    /** One row from every shard, in shard order. */
    method GetSqlRowsData() returns (r: Result<seq<Row>>)
      ensures r == FirstRows(rowsList)
    {
      var rowsData: seq<Row> := [];
      var i := 0;
      while i < |rowsList|
        invariant 0 <= i <= |rowsList|
        invariant FirstRows(rowsList[..i]) == Success(rowsData)
      {
        assert rowsList[..i + 1][..i] == rowsList[..i];
        var colData := FirstRow(rowsList[i]);
        if colData.Failure? {
          FirstRowsFailurePersists(rowsList, i + 1);
          return Failure(colData.error);
        }
        rowsData := rowsData + [colData.value];
        i := i + 1;
      }
      assert rowsList[..i] == rowsList;
      return Success(rowsData);
    }

    /** The current row, after the error and state checks in their order of
        precedence. */
    function Scan(): (r: Result<seq<Value>>)
      requires Valid()
      reads this
      ensures lastErr.Some? ==> r == Failure(lastErr.value)
      ensures lastErr.None? && closed ==> r == Failure(RowsClosed)
      ensures lastErr.None? && !closed && cur == [] ==> r == Failure(ScanNotNext)
      ensures r.Success? ==> nextCalled && MergeRow(rowsList, aggregators) == r
      ensures lastErr.None? && !closed && cur != [] ==>
                r == Success(cur) && nextCalled && MergeRow(rowsList, aggregators) == r
    {
      if lastErr.Some? then Failure(lastErr.value)
      else if closed then Failure(RowsClosed)
      else if |cur| == 0 then Failure(ScanNotNext)
      else Success(cur)
    }

    /** Closes every shard source and combines their close failures. */
    method Close() returns (errs: seq<Error>)
      requires Consistent()
      modifies this
      ensures Valid()
      ensures closed && errs == CloseFailures(rowsList)
      ensures lastErr == old(lastErr) && cur == old(cur) && nextCalled == old(nextCalled)
    {
      closed := true;
      errs := CloseAll(rowsList);
    }

    function Columns(): (r: Result<seq<string>>)
      reads this
      ensures closed <==> r == Failure(RowsClosed)
      ensures !closed ==> r == Success(columns)
    {
      if closed then Failure(RowsClosed) else Success(columns)
    }

    /** The error recorded by Next; a recorded error means the cursor closed. */
    function Err(): (e: Option<Error>)
      requires Valid()
      reads this
      ensures e.Some? ==> closed && nextCalled && MergeRow(rowsList, aggregators) == Failure(e.value)
      ensures e.Some? <==> nextCalled && MergeRow(rowsList, aggregators).Failure?
    {
      lastErr
    }
  }

  lemma {:induction false} FirstRowsFailurePersists(shards: seq<Shard>, k: int)
    requires 0 <= k <= |shards| && FirstRows(shards[..k]).Failure?
    ensures FirstRows(shards) == FirstRows(shards[..k])
    decreases |shards|
  {
    if k < |shards| {
      var n := |shards| - 1;
      assert shards[..n][..k] == shards[..k];
      FirstRowsFailurePersists(shards[..n], k);
    } else {
      assert shards[..k] == shards;
    }
  }
}
