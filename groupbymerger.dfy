/**
  The merger for aggregate queries with GROUP BY: it reads every row of every
  shard up front, buckets the rows by group key, and then yields one merged
  row per key, in the order the keys were first seen — the key values
  followed by one value per aggregator over the key's bucket.
 */
module GroupByMerger {
  import opened Values
  import opened MergerCursor
  import opened GroupKey
  import opened Grouping

  /** What grouping needs of the rows it reads: every row has the group-by
      columns, and every two keys can be compared without a failed type
      assertion. */
  predicate GroupReady(shards: seq<Shard>, groupCols: seq<ColumnInfo>)
  {
    var rows := ScanUntilError(shards).rows;
    AllReadable(rows, groupCols) &&
    forall i, j :: 0 <= i < |rows| && 0 <= j < |rows| ==>
      Comparable(KeyOf(rows[i], groupCols), KeyOf(rows[j], groupCols))
  }

  /** On the keys of the rows read, the key comparison returns 0 exactly for
      equal keys and swapping two keys negates it; with KeysCompareTransitive,
      the comparison is a strict order on those keys whose equivalence is
      equality, so the ordered map keyed by it holds the same buckets as a map
      keyed by equality. */
  lemma KeysCompareAsEquality(shards: seq<Shard>, groupCols: seq<ColumnInfo>, i: int, j: int)
    requires GroupReady(shards, groupCols)
    requires var rows := ScanUntilError(shards).rows; 0 <= i < |rows| && 0 <= j < |rows|
    ensures var rows := ScanUntilError(shards).rows;
            var a, b := KeyOf(rows[i], groupCols), KeyOf(rows[j], groupCols);
            Comparable(a, b) && (Compare(a, b) == 0 <==> a == b)
    ensures var rows := ScanUntilError(shards).rows;
            var a, b := KeyOf(rows[i], groupCols), KeyOf(rows[j], groupCols);
            Comparable(b, a) && Compare(b, a) == -Compare(a, b)
  {
    var rows := ScanUntilError(shards).rows;
    CompareZeroIffEqual(KeyOf(rows[i], groupCols), KeyOf(rows[j], groupCols));
    CompareAntisymmetric(KeyOf(rows[i], groupCols), KeyOf(rows[j], groupCols));
  }

  /** On the keys of the rows read, the key comparison is transitive. */
  lemma KeysCompareTransitive(shards: seq<Shard>, groupCols: seq<ColumnInfo>, i: int, j: int, l: int)
    requires GroupReady(shards, groupCols)
    requires var rows := ScanUntilError(shards).rows;
             0 <= i < |rows| && 0 <= j < |rows| && 0 <= l < |rows|
    ensures var rows := ScanUntilError(shards).rows;
            var a, b, c := KeyOf(rows[i], groupCols), KeyOf(rows[j], groupCols), KeyOf(rows[l], groupCols);
            Comparable(a, b) && Comparable(b, c) && Comparable(a, c) &&
            (Compare(a, b) == -1 && Compare(b, c) == -1 ==> Compare(a, c) == -1)
  {
    var rows := ScanUntilError(shards).rows;
    var a, b, c := KeyOf(rows[i], groupCols), KeyOf(rows[j], groupCols), KeyOf(rows[l], groupCols);
    if Compare(a, b) == -1 && Compare(b, c) == -1 {
      CompareTransitive(a, b, c);
    }
  }

  /** The merged row of one group: its key values, then every aggregator's
      value over its bucket, or the first aggregator error. */
  function MergedGroup(key: Key, bucket: seq<Row>, aggs: seq<Aggregator>): (r: Result<seq<Value>>)
    ensures r.Success? <==> forall k :: 0 <= k < |aggs| ==> aggs[k].aggregate(bucket).Success?
    ensures r.Success? ==>
              |r.value| == |key| + |aggs| && r.value[..|key|] == key &&
              forall k :: 0 <= k < |aggs| ==> aggs[k].aggregate(bucket) == Success(r.value[|key| + k])
    ensures r.Failure? ==>
              exists k :: 0 <= k < |aggs| && aggs[k].aggregate(bucket) == Failure(r.error) &&
                          forall j :: 0 <= j < k ==> aggs[j].aggregate(bucket).Success?
  {
    var ev := Evaluate(aggs, bucket);
    EvaluateSucceeds(aggs, bucket);
    if ev.failure.Some? then
      assert aggs[|ev.values|].aggregate(bucket) == Failure(ev.failure.value);
      Failure(ev.failure.value)
    else Success(key + ev.values)
  }

  /** The rows a grouped cursor aggregates for its i-th key are exactly the rows
      read whose key it is. */
  lemma GroupRowsAreBuckets(rows: seq<Row>, groupCols: seq<ColumnInfo>, i: int)
    requires AllReadable(rows, groupCols)
    requires 0 <= i < |Group(rows, groupCols).dataIndex|
    ensures var g := Group(rows, groupCols);
            g.dataIndex[i] in g.dataMap && g.dataMap[g.dataIndex[i]] == Filter(rows, groupCols, g.dataIndex[i])
  {
    GroupKeys(rows, groupCols);
    GroupBucketIsFilter(rows, groupCols);
  }

  // ---------------------------------------------------------------------------
  // The merger

  datatype AggregatorMerger = AggregatorMerger(
    aggregators: seq<Aggregator>,
    avgIndexes: seq<int>,
    groupColumns: seq<ColumnInfo>,
    columnsName: seq<string>)
  {
    /** Records the column types of the first shard, groups every row of every
        shard, and starts a cursor before the first group. */
    method Merge(results: seq<Option<Shard>>) returns (r: Result<AggregatorRows>)
      requires |results| > 0 && None !in results && results[0].value.columnTypes.Success? ==>
                 GroupReady(Present(results), groupColumns)
      ensures |results| == 0 ==> r == Failure(EmptyRows)
      ensures |results| > 0 && None in results ==> r == Failure(RowsIsNull)
      ensures |results| > 0 && None !in results && results[0].value.columnTypes.Failure? ==>
                r == Failure(results[0].value.columnTypes.error)
      ensures |results| > 0 && None !in results && results[0].value.columnTypes.Success? ==>
                var s := ScanUntilError(Present(results));
                (s.err.Some? ==> r == Failure(s.err.value)) &&
                (s.err.None? ==>
                   r.Success? && fresh(r.value) && r.value.Valid() &&
                   r.value.rowsList == Present(results) &&
                   r.value.columnTypes == results[0].value.columnTypes.value &&
                   Grouping(r.value.dataMap, r.value.dataIndex) == Group(s.rows, groupColumns) &&
                   r.value.aggregators == aggregators && r.value.avgIndexes == avgIndexes &&
                   r.value.groupColumns == groupColumns && r.value.cols == columnsName &&
                   r.value.cur == -1 && !r.value.closed && r.value.lastErr == None)
    {
      if |results| == 0 {
        return Failure(EmptyRows);
      }
      if None in results {
        return Failure(RowsIsNull);
      }
      var shards := Present(results);
      var columnTypes := shards[0].columnTypes;
      if columnTypes.Failure? {
        return Failure(columnTypes.error);
      }
      var g := GetCols(shards);
      if g.Failure? {
        return Failure(g.error);
      }
      GroupKeys(ScanUntilError(shards).rows, groupColumns);
      var rows := new AggregatorRows(shards, columnTypes.value, aggregators, avgIndexes, groupColumns,
                                     g.value.dataMap, g.value.dataIndex, columnsName);
      return Success(rows);
    }

    /** Reads every shard in order and adds each of its rows to the bucket of the
        row's key, recording each new key in first-seen order. */
    method GetCols(rowsList: seq<Shard>) returns (r: Result<Grouping>)
      requires AllReadable(ScanUntilError(rowsList).rows, groupColumns)
      ensures var s := ScanUntilError(rowsList);
              if s.err.Some? then r == Failure(s.err.value) else r == Success(Group(s.rows, groupColumns))
    {
      var dataMap: map<Key, seq<Row>> := map[];
      var keys: seq<Key> := [];
      var i := 0;
      while i < |rowsList|
        invariant 0 <= i <= |rowsList|
        invariant ScanUntilError(rowsList[..i]).err.None?
        invariant AllReadable(ScanUntilError(rowsList[..i]).rows, groupColumns)
        invariant Grouping(dataMap, keys) == Group(ScanUntilError(rowsList[..i]).rows, groupColumns)
      {
        var res := rowsList[i];
        assert rowsList[..i + 1][..i] == rowsList[..i];
        if res.scanError.Some? {
          ScanErrorPersists(rowsList, i + 1);
          return Failure(res.scanError.value);
        }
        ghost var base := ScanUntilError(rowsList[..i]).rows;
        var colsData := res.rows;
        ScanStep(rowsList, i, groupColumns);
        assert base + colsData[..0] == base;
        var j := 0;
        while j < |colsData|
          invariant 0 <= j <= |colsData|
          invariant AllReadable(base + colsData, groupColumns)
          invariant AllReadable(base + colsData[..j], groupColumns)
          invariant Grouping(dataMap, keys) == Group(base + colsData[..j], groupColumns)
        {
          var colData := colsData[j];
          GroupExtend(base, colsData, j, groupColumns);
          var key := BuildKey(colData, groupColumns);
          if key in dataMap {
            dataMap := dataMap[key := dataMap[key] + [colData]];
          } else {
            keys := keys + [key];
            dataMap := dataMap[key := [colData]];
          }
          j := j + 1;
        }
        assert colsData[..j] == colsData;
        i := i + 1;
      }
      assert rowsList[..i] == rowsList;
      return Success(Grouping(dataMap, keys));
    }
  }

  /** Builds the merger: the visible column names (group-by columns first,
      then aggregators) and the AVG positions. */
  method NewAggregatorMerger(aggregators: seq<Aggregator>, groupColumns: seq<ColumnInfo>)
    returns (m: AggregatorMerger)
    ensures m.aggregators == aggregators && m.groupColumns == groupColumns
    ensures |m.columnsName| == |groupColumns| + |aggregators|
    ensures forall i :: 0 <= i < |groupColumns| ==> m.columnsName[i] == groupColumns[i].selectName
    ensures forall i :: 0 <= i < |aggregators| ==>
              m.columnsName[|groupColumns| + i] == aggregators[i].info.selectName
    ensures m.avgIndexes == AvgIndexes(aggregators)
  {
    var cols: seq<string> := [];
    var idx: seq<int> := [];
    var i := 0;
    while i < |groupColumns|
      invariant 0 <= i <= |groupColumns|
      invariant |cols| == i
      invariant forall j :: 0 <= j < i ==> cols[j] == groupColumns[j].selectName
    {
      cols := cols + [groupColumns[i].selectName];
      i := i + 1;
    }
    i := 0;
    while i < |aggregators|
      invariant 0 <= i <= |aggregators|
      invariant |cols| == |groupColumns| + i
      invariant forall j :: 0 <= j < |groupColumns| ==> cols[j] == groupColumns[j].selectName
      invariant forall j :: 0 <= j < i ==> cols[|groupColumns| + j] == aggregators[j].info.selectName
      invariant idx == AvgIndexes(aggregators[..i])
    {
      assert aggregators[..i + 1][..i] == aggregators[..i];
      var agg := aggregators[i];
      if agg.name == "AVG" {
        idx := idx + [agg.info.index];
      }
      cols := cols + [agg.info.selectName];
      i := i + 1;
    }
    assert aggregators[..i] == aggregators;
    m := AggregatorMerger(aggregators, idx, groupColumns, cols);
  }

  // ---------------------------------------------------------------------------
  // The cursor

  class AggregatorRows {
    const rowsList: seq<Shard>
    const columnTypes: seq<ColumnType>
    const aggregators: seq<Aggregator>
    const avgIndexes: seq<int>
    const groupColumns: seq<ColumnInfo>
    const dataMap: map<Key, seq<Row>>
    const dataIndex: seq<Key>
    const cols: seq<string>
    var cur: int
    var curData: seq<Value>
    var closed: bool
    var lastErr: Option<Error>

    /** The merged row of the group at position i. */
    ghost function Row(i: int): Result<seq<Value>>
      requires 0 <= i < |dataIndex| && dataIndex[i] in dataMap
    {
      MergedGroup(dataIndex[i], dataMap[dataIndex[i]], aggregators)
    }

    /** The cursor moves from before the first group to past the last and
        closes there; the current row is the current group's merged row, and a
        recorded error is that group's failure and closes the cursor. */
    ghost predicate Valid()
      reads this
    {
      Consistent() && (lastErr.Some? ==> closed) && (cur == |dataIndex| ==> closed)
    }

    /** What Valid asks of the position, row and error alone. */
    ghost predicate Consistent()
      reads this
    {
      && -1 <= cur <= |dataIndex|
      && (forall i :: 0 <= i < |dataIndex| ==> dataIndex[i] in dataMap)
      && (lastErr.Some? ==> 0 <= cur < |dataIndex| && Row(cur) == Failure(lastErr.value))
      && (0 <= cur < |dataIndex| && lastErr.None? ==> Row(cur) == Success(curData))
    }

    constructor (rowsList: seq<Shard>, columnTypes: seq<ColumnType>, aggregators: seq<Aggregator>,
                 avgIndexes: seq<int>, groupColumns: seq<ColumnInfo>,
                 dataMap: map<Key, seq<Row>>, dataIndex: seq<Key>, cols: seq<string>)
      requires forall i :: 0 <= i < |dataIndex| ==> dataIndex[i] in dataMap
      ensures Valid()
      ensures this.rowsList == rowsList && this.columnTypes == columnTypes
      ensures this.aggregators == aggregators && this.avgIndexes == avgIndexes
      ensures this.groupColumns == groupColumns && this.cols == cols
      ensures this.dataMap == dataMap && this.dataIndex == dataIndex
      ensures cur == -1 && curData == [] && !closed && lastErr == None
    {
      this.rowsList := rowsList;
      this.columnTypes := columnTypes;
      this.aggregators := aggregators;
      this.avgIndexes := avgIndexes;
      this.groupColumns := groupColumns;
      this.dataMap := dataMap;
      this.dataIndex := dataIndex;
      this.cols := cols;
      cur := -1;
      curData := [];
      closed := false;
      lastErr := None;
    }

    /** The recorded column types with the AVG rewrite's synthetic columns
        hidden. */
    method ColumnTypes() returns (r: Result<seq<ColumnType>>)
      requires !closed ==> Layout(|columnTypes|, avgIndexes, 0)
      ensures closed ==> r == Failure(RowsClosed)
      ensures !closed ==> r == Success(Collapse(columnTypes, avgIndexes))
    {
      if closed {
        return Failure(RowsClosed);
      }
      var v := CollapseColumnTypes(columnTypes, avgIndexes);
      return Success(v);
    }

    /** Moves to the next group and merges it; past the last group, or on an
        aggregator error, the cursor closes. */
    method Next() returns (more: bool)
      requires Valid()
      modifies this
      ensures Valid()
      ensures old(closed) ==>
                !more && closed && cur == old(cur) && curData == old(curData) && lastErr == old(lastErr)
      ensures !old(closed) ==> cur == old(cur) + 1
      ensures more <==> !old(closed) && cur < |dataIndex| && Row(cur).Success?
      ensures more ==> !closed && Row(cur) == Success(curData)
      ensures !more ==> closed
      ensures !old(closed) && cur == |dataIndex| ==> lastErr == None
    {
      if closed {
        return false;
      }
      cur := cur + 1;
      if cur >= |dataIndex| {
        var _ := Close();
        return false;
      }
      var key := dataIndex[cur];
      var res := AggregateGroup(key, dataMap[key]);
      if res.Failure? {
        lastErr := Some(res.error);
        var _ := Close();
        return false;
      }
      curData := res.value;
      return true;
    }

    /** The key values followed by every aggregator over the bucket, stopping
        at the first aggregator error. */
    method AggregateGroup(key: Key, val: seq<Row>) returns (r: Result<seq<Value>>)
      ensures r == MergedGroup(key, val, aggregators)
    {
      var data := key;
      ghost var res: seq<Value> := [];
      var i := 0;
      while i < |aggregators|
        invariant 0 <= i <= |aggregators|
        invariant data == key + res
        invariant Evaluate(aggregators[..i], val) == Evaluation(res, None)
      {
        assert aggregators[..i + 1][..i] == aggregators[..i];
        var agg := aggregators[i].aggregate(val);
        if agg.Failure? {
          EvaluateFailurePersists(aggregators, val, i + 1);
          return Failure(agg.error);
        }
        data := data + [agg.value];
        res := res + [agg.value];
        i := i + 1;
      }
      assert aggregators[..i] == aggregators;
      return Success(data);
    }

    /** The current row, after the error and state checks in their order of
        precedence. */
    function Scan(): (r: Result<seq<Value>>)
      requires Valid()
      reads this
      ensures lastErr.Some? ==> r == Failure(lastErr.value)
      ensures lastErr.None? && closed ==> r == Failure(RowsClosed)
      ensures lastErr.None? && !closed && cur == -1 ==> r == Failure(ScanNotNext)
      ensures r.Success? ==> 0 <= cur < |dataIndex| && Row(cur) == r
      ensures lastErr.None? && !closed && cur != -1 ==>
                0 <= cur < |dataIndex| && r == Success(curData) && Row(cur) == r
    {
      if lastErr.Some? then Failure(lastErr.value)
      else if closed then Failure(RowsClosed)
      else if cur == -1 then Failure(ScanNotNext)
      else Success(curData)
    }

    /** Closes every shard source and combines their close failures. */
    method Close() returns (errs: seq<Error>)
      requires Consistent()
      modifies this
      ensures Valid()
      ensures closed && errs == CloseFailures(rowsList)
      ensures cur == old(cur) && curData == old(curData) && lastErr == old(lastErr)
    {
      closed := true;
      errs := CloseAll(rowsList);
    }

    function Columns(): (r: Result<seq<string>>)
      reads this
      ensures closed <==> r == Failure(RowsClosed)
      ensures !closed ==> r == Success(cols)
    {
      if closed then Failure(RowsClosed) else Success(cols)
    }

    /** The error recorded by Next: the failure of the group the cursor is on. */
    function Err(): (e: Option<Error>)
      requires Valid()
      reads this
      ensures e.Some? ==> closed && 0 <= cur < |dataIndex| && Row(cur) == Failure(e.value)
      ensures e.Some? <==> closed && 0 <= cur < |dataIndex| && Row(cur).Failure?
    {
      lastErr
    }
  }
}
