/**
  The COUNT aggregator of the second-stage merge: it adds the shard-local
  partial counts found at one column of a batch of shard rows.
 */
module CountAggregator {
  import opened Values

  // ---------------------------------------------------------------------------
  // Fixed-width arithmetic of the accumulator

  /** `x` reduced into the window `[lo, lo + m)` modulo `m`. */
  function WrapMod(x: int, lo: int, m: int): (r: int)
    requires m > 0
    ensures lo <= r < lo + m
    ensures lo <= x < lo + m ==> r == x
  {
    (x - lo) % m + lo
  }

  /** The float kinds, whose accumulator does not wrap around. */
  predicate IsFloat(k: NumKind)
  {
    k == Float32 || k == Float64
  }

  /** The least value of an integer kind; `int` and `uint` are taken as 64 bits
      wide. */
  function Lo(k: NumKind): int
    requires !IsFloat(k)
  {
    match k
    case Int8 => -0x80
    case Int16 => -0x8000
    case Int32 => -0x8000_0000
    case Int64 => -0x8000_0000_0000_0000
    case Int => -0x8000_0000_0000_0000
    case _ => 0
  }

  /** The number of values of an integer kind. */
  function Modulus(k: NumKind): (m: int)
    requires !IsFloat(k)
    ensures m > 0
  {
    match k
    case Int8 => 0x100
    case Uint8 => 0x100
    case Int16 => 0x1_0000
    case Uint16 => 0x1_0000
    case Int32 => 0x1_0000_0000
    case Uint32 => 0x1_0000_0000
    case _ => 0x1_0000_0000_0000_0000
  }

  /** The value a Go accumulator of kind `k` holds after adding up to `x`:
      two's-complement wrap-around into the kind's window for the integer
      kinds, the exact value for the float kinds. */
  function Wrap(k: NumKind, x: int): int
  {
    match k
    case Int => WrapMod(x, -0x8000_0000_0000_0000, 0x1_0000_0000_0000_0000)
    case Int8 => WrapMod(x, -0x80, 0x100)
    case Int16 => WrapMod(x, -0x8000, 0x1_0000)
    case Int32 => WrapMod(x, -0x8000_0000, 0x1_0000_0000)
    case Int64 => WrapMod(x, -0x8000_0000_0000_0000, 0x1_0000_0000_0000_0000)
    case Uint => WrapMod(x, 0, 0x1_0000_0000_0000_0000)
    case Uint8 => WrapMod(x, 0, 0x100)
    case Uint16 => WrapMod(x, 0, 0x1_0000)
    case Uint32 => WrapMod(x, 0, 0x1_0000_0000)
    case Uint64 => WrapMod(x, 0, 0x1_0000_0000_0000_0000)
    case Float32 => x
    case Float64 => x
  }

  /** The accumulator of an integer kind lies in that kind's window and keeps
      the values already in it; a float accumulator is exact. */
  lemma WrapInWindow(k: NumKind, x: int)
    ensures IsFloat(k) ==> Wrap(k, x) == x
    ensures !IsFloat(k) ==> Lo(k) <= Wrap(k, x) < Lo(k) + Modulus(k)
    ensures !IsFloat(k) && Lo(k) <= x < Lo(k) + Modulus(k) ==> Wrap(k, x) == x
  {
    match k
    case Int => assert Wrap(k, x) == WrapMod(x, Lo(k), Modulus(k));
    case Int8 => assert Wrap(k, x) == WrapMod(x, Lo(k), Modulus(k));
    case Int16 => assert Wrap(k, x) == WrapMod(x, Lo(k), Modulus(k));
    case Int32 => assert Wrap(k, x) == WrapMod(x, Lo(k), Modulus(k));
    case Int64 => assert Wrap(k, x) == WrapMod(x, Lo(k), Modulus(k));
    case Uint => assert Wrap(k, x) == WrapMod(x, Lo(k), Modulus(k));
    case Uint8 => assert Wrap(k, x) == WrapMod(x, Lo(k), Modulus(k));
    case Uint16 => assert Wrap(k, x) == WrapMod(x, Lo(k), Modulus(k));
    case Uint32 => assert Wrap(k, x) == WrapMod(x, Lo(k), Modulus(k));
    case Uint64 => assert Wrap(k, x) == WrapMod(x, Lo(k), Modulus(k));
    case Float32 =>
    case Float64 =>
  }

  lemma ModShift(y: int, q: int, m: int)
    requires m > 0
    ensures (y + m * q) % m == y % m
  {
    var z := y + m * q;
    var d := z / m - y / m - q;
    assert m * d == y % m - z % m;
  }

  lemma ModAddLeft(x: int, b: int, m: int)
    requires m > 0
    ensures (x % m + b) % m == (x + b) % m
  {
    assert x + b == (x % m + b) + m * (x / m);
    ModShift(x % m + b, x / m, m);
  }

  lemma WrapModAdd(a: int, b: int, lo: int, m: int)
    requires m > 0
    ensures WrapMod(WrapMod(a, lo, m) + b, lo, m) == WrapMod(a + b, lo, m)
  {
    assert WrapMod(a, lo, m) + b - lo == (a - lo) % m + b;
    ModAddLeft(a - lo, b, m);
  }

  /** Adding into a wrapped accumulator is the same as wrapping the exact sum. */
  lemma WrapAdd(k: NumKind, a: int, b: int)
    ensures Wrap(k, Wrap(k, a) + b) == Wrap(k, a + b)
  {
    if !IsFloat(k) {
      WrapModAdd(a, b, Lo(k), Modulus(k));
    }
  }

  // ---------------------------------------------------------------------------
  // The dispatch table and the column views the aggregator works on

  /** The kinds that have an adder in the COUNT table: every integer kind and
      both float kinds; strings and booleans have none. */
  predicate HasCountFunc(k: Kind): (r: bool)
    ensures r <==> k != String && k != Bool
  {
    match k
    case Numeric(_) => true
    case String => false
    case Bool => false
  }

  predicate HasColumn(cols: seq<Row>, i: int)
  {
    0 <= i && forall j :: 0 <= j < |cols| ==> i < |cols[j]|
  }

  /** Every value of column `i` is an SQL NULL. */
  predicate AllNull(cols: seq<Row>, i: int)
    requires HasColumn(cols, i)
  {
    forall j :: 0 <= j < |cols| ==> Unwrapped(cols[j][i]).None?
  }

  /** The kind of the first non-null value of column `i`, if there is one. */
  function FirstNonNullKind(cols: seq<Row>, i: int): Option<Kind>
    requires HasColumn(cols, i)
  {
    if cols == [] then None
    else match Unwrapped(cols[0][i])
      case Some(s) => Some(KindOf(s))
      case None => FirstNonNullKind(cols[1..], i)
  }

  /** The rows whose value at `i` is not NULL, each with that value unwrapped to
      its plain scalar, in their original order. */
  function NonNullRows(cols: seq<Row>, i: int): seq<Row>
    requires HasColumn(cols, i)
  {
    if cols == [] then []
    else
      var p := NonNullRows(cols[..|cols| - 1], i);
      var last := cols[|cols| - 1];
      match Unwrapped(last[i])
      case None => p
      case Some(s) => p + [last[i := Plain(s)]]
  }

  /** The numeric contribution of a value: its number when it is a plain number. */
  function PlainNumber(v: Value): int
  {
    match v
    case Plain(Num(_, n)) => n
    case _ => 0
  }

  /** The exact sum of column `i` over plain numbers. */
  function SumColumn(cols: seq<Row>, i: int): int
    requires HasColumn(cols, i)
  {
    if cols == [] then 0
    else SumColumn(cols[..|cols| - 1], i) + PlainNumber(cols[|cols| - 1][i])
  }

  /** One more row of the adder's loop: the exact total grows by the row's
      number, and the accumulator keeps holding the wrapped total. */
  lemma CountLoopStep(k: NumKind, cols: seq<Row>, i: int, j: int, count: int, total: int)
    requires HasColumn(cols, i) && 0 <= j < |cols|
    requires cols[j][i].Plain? && cols[j][i].scalar.Num?
    requires total == SumColumn(cols[..j], i) && count == Wrap(k, total)
    ensures total + cols[j][i].scalar.n == SumColumn(cols[..j + 1], i)
    ensures Wrap(k, count + cols[j][i].scalar.n) == Wrap(k, total + cols[j][i].scalar.n)
  {
    SumColumnStep(cols, j, i);
    WrapAdd(k, total, cols[j][i].scalar.n);
  }

  /** One more row adds its plain number to the sum of the prefix. */
  lemma SumColumnStep(cols: seq<Row>, j: int, i: int)
    requires HasColumn(cols, i) && 0 <= j < |cols|
    ensures HasColumn(cols[..j], i) && HasColumn(cols[..j + 1], i)
    ensures SumColumn(cols[..j + 1], i) == SumColumn(cols[..j], i) + PlainNumber(cols[j][i])
  {
    assert cols[..j + 1][..j] == cols[..j];
  }

  /** Independent reference: the exact sum of every non-null number of column
      `i`, valid wrappers contributing their payload. */
  function NonNullTotal(cols: seq<Row>, i: int): int
    requires HasColumn(cols, i)
  {
    if cols == [] then 0
    else
      var c := match Unwrapped(cols[0][i]) case Some(Num(_, n)) => n case _ => 0;
      c + NonNullTotal(cols[1..], i)
  }

  /** Where Go's `.(T)` type assertion of the COUNT adder would panic: once the
      first non-null value selects an adder of kind `k`, every other non-null
      value must be of kind `k` too. */
  predicate WellTyped(cols: seq<Row>, i: int)
    requires HasColumn(cols, i)
  {
    match FirstNonNullKind(cols, i)
    case Some(Numeric(k)) =>
      forall j :: 0 <= j < |cols| ==> NullOrKind(cols[j][i], Numeric(k))
    case _ => true
  }

  predicate NullOrKind(v: Value, k: Kind)
  {
    match Unwrapped(v)
    case None => true
    case Some(s) => KindOf(s) == k
  }

  // ---------------------------------------------------------------------------
  // The aggregator

  /** The COUNT aggregator value: its name tag and its column descriptor. */
  datatype Count = Count(name: string, countInfo: ColumnInfo)
  {
    function Name(): string
    {
      name
    }

    function ColumnInfo(): Values.ColumnInfo
    {
      countInfo
    }

    /** Merges the partial counts at `countInfo.index` of one row per shard (or
        of every row of one group). */
    function Aggregate(cols: seq<Row>): (r: Result<Value>)
      requires |cols| > 0
      requires 0 <= countInfo.index < |cols[0]| ==>
                 HasColumn(cols, countInfo.index) && WellTyped(cols, countInfo.index)
      ensures !(0 <= countInfo.index < |cols[0]|) <==> r == Failure(InvalidAggregateColumnIndex)
      ensures 0 <= countInfo.index < |cols[0]| && AllNull(cols, countInfo.index) ==>
                r == Success(cols[0][countInfo.index])
      ensures 0 <= countInfo.index < |cols[0]| && !AllNull(cols, countInfo.index) ==>
                var k := FirstNonNullKind(cols, countInfo.index);
                k.Some? &&
                (!HasCountFunc(k.value) ==> r == Failure(AggregateFuncNotFound)) &&
                (HasCountFunc(k.value) ==>
                   r == Success(Plain(Num(k.value.numKind,
                                          Wrap(k.value.numKind, NonNullTotal(cols, countInfo.index))))))
    {
      var i := countInfo.index;
      if !(0 <= i < |cols[0]|) then Failure(InvalidAggregateColumnIndex)
      else CountNullable(cols, i)
    }
  }

  function NewCount(info: ColumnInfo): (c: Count)
    ensures c.Name() == "COUNT"
    ensures c.ColumnInfo() == info
  {
    Count("COUNT", info)
  }

  /** The observable effect of the nullable pre-pass: the non-null rows of
      column `i` (unwrapped) and the kind of the first of them. */
  datatype NullSplit = NullSplit(notNullCols: seq<Row>, kind: Option<Kind>)

  function NullableAggregator(cols: seq<Row>, i: int): (r: NullSplit)
    requires HasColumn(cols, i)
    ensures (|r.notNullCols| == 0) <==> r.kind.None?
    ensures (|r.notNullCols| == 0) <==> AllNull(cols, i)
    ensures HasColumn(r.notNullCols, i)
  {
    NonNullRowsEmpty(cols, i);
    FirstNonNullKindNone(cols, i);
    NonNullRowsColumn(cols, i);
    NullSplit(NonNullRows(cols, i), FirstNonNullKind(cols, i))
  }

  /** COUNT over a column that may hold NULL wrappers. */
  function CountNullable(colsData: seq<Row>, i: int): (r: Result<Value>)
    requires |colsData| > 0 && HasColumn(colsData, i)
    requires WellTyped(colsData, i)
    ensures AllNull(colsData, i) ==> r == Success(colsData[0][i])
    ensures !AllNull(colsData, i) ==>
              var k := FirstNonNullKind(colsData, i);
              k.Some? &&
              (!HasCountFunc(k.value) ==> r == Failure(AggregateFuncNotFound)) &&
              (HasCountFunc(k.value) ==>
                 r == Success(Plain(Num(k.value.numKind, Wrap(k.value.numKind, NonNullTotal(colsData, i))))))
  {
    var split := NullableAggregator(colsData, i);
    if |split.notNullCols| == 0 then Success(colsData[0][i])
    else if !HasCountFunc(split.kind.value) then Failure(AggregateFuncNotFound)
    else
      var k := split.kind.value.numKind;
      NonNullRowsSum(colsData, i);
      Success(CountSum(k, split.notNullCols, i))
  }

  /** What the adder of kind `k` returns for a batch: the column's sum held in
      an accumulator of kind `k`. */
  function CountSum(k: NumKind, cols: seq<Row>, i: int): Value
    requires HasColumn(cols, i)
  {
    Plain(Num(k, Wrap(k, SumColumn(cols, i))))
  }

  /** The adder of kind `k`: accumulates column `i` of every row. Each value
      must be a plain number of kind `k` (the Go type assertion). */
  method CountAggregate(k: NumKind, cols: seq<Row>, countIndex: int) returns (r: Value)
    requires HasColumn(cols, countIndex)
    requires forall j :: 0 <= j < |cols| ==>
               cols[j][countIndex].Plain? && cols[j][countIndex].scalar.Num? &&
               cols[j][countIndex].scalar.kind == k
    ensures r == CountSum(k, cols, countIndex)
  {
    var count := Wrap(k, 0);
    ghost var total := 0;
    var j := 0;
    while j < |cols|
      invariant 0 <= j <= |cols|
      invariant total == SumColumn(cols[..j], countIndex)
      invariant count == Wrap(k, total)
    {
      var v := cols[j][countIndex].scalar.n;
      CountLoopStep(k, cols, countIndex, j, count, total);
      count := Wrap(k, count + v);
      total := total + v;
      j := j + 1;
    }
    assert cols[..j] == cols;
    r := Plain(Num(k, count));
  }

  /** COUNT over a column that may hold NULL wrappers, running the adder the
      first non-null kind selects over the non-null rows. */
  method CountNullableAggregator(colsData: seq<Row>, i: int) returns (r: Result<Value>)
    requires |colsData| > 0 && HasColumn(colsData, i)
    requires WellTyped(colsData, i)
    ensures r == CountNullable(colsData, i)
  {
    var split := NullableAggregator(colsData, i);
    if |split.notNullCols| == 0 {
      return Success(colsData[0][i]);
    }
    if !HasCountFunc(split.kind.value) {
      return Failure(AggregateFuncNotFound);
    }
    var k := split.kind.value.numKind;
    assert split.notNullCols == NonNullRows(colsData, i);
    assert FirstNonNullKind(colsData, i) == Some(Numeric(k));
    NonNullRowsTyped(colsData, i, k);
    var v := CountAggregate(k, split.notNullCols, i);
    return Success(v);
  }

  // ---------------------------------------------------------------------------
  // Facts about the column views

  lemma {:induction false} NonNullRowsColumn(cols: seq<Row>, i: int)
    requires HasColumn(cols, i)
    ensures HasColumn(NonNullRows(cols, i), i)
  {
    if cols != [] {
      NonNullRowsColumn(cols[..|cols| - 1], i);
    }
  }

  /** The type assertion of the adder of kind `k` holds on the non-null rows of
      a well-typed column whose first non-null value has kind `k`: each is a
      plain number of kind `k`. */
  lemma NonNullRowsTyped(cols: seq<Row>, i: int, k: NumKind)
    requires HasColumn(cols, i) && WellTyped(cols, i)
    requires FirstNonNullKind(cols, i) == Some(Numeric(k))
    ensures HasColumn(NonNullRows(cols, i), i)
    ensures var nn := NonNullRows(cols, i);
            forall j :: 0 <= j < |nn| ==>
              nn[j][i].Plain? && nn[j][i].scalar.Num? && nn[j][i].scalar.kind == k
  {
    NonNullRowsUniform(cols, i, k);
  }

  lemma {:induction false} NonNullRowsUniform(cols: seq<Row>, i: int, k: NumKind)
    requires HasColumn(cols, i) && Uniform(cols, i, Numeric(k))
    ensures HasColumn(NonNullRows(cols, i), i)
    ensures var nn := NonNullRows(cols, i);
            forall j :: 0 <= j < |nn| ==>
              nn[j][i].Plain? && nn[j][i].scalar.Num? && nn[j][i].scalar.kind == k
  {
    NonNullRowsColumn(cols, i);
    if cols != [] {
      var p := cols[..|cols| - 1];
      assert forall j :: 0 <= j < |p| ==> p[j] == cols[j];
      assert Uniform(p, i, Numeric(k));
      NonNullRowsUniform(p, i, k);
      NonNullRowsColumn(p, i);
      assert forall j :: 0 <= j < |NonNullRows(p, i)| ==> NonNullRows(p, i)[j][i].Plain?;
      assert forall j :: 0 <= j < |NonNullRows(p, i)| ==> NonNullRows(p, i)[j][i].scalar.Num?;
      assert forall j :: 0 <= j < |NonNullRows(p, i)| ==> NonNullRows(p, i)[j][i].scalar.kind == k;
      var last := cols[|cols| - 1];
      assert NullOrKind(last[i], Numeric(k));
      match Unwrapped(last[i])
      case None =>
      case Some(s) =>
        var nn := NonNullRows(p, i);
        var q := nn + [last[i := Plain(s)]];
        assert NonNullRows(cols, i) == q;
        assert s.Num? && s.kind == k;
        assert q[|q| - 1][i] == Plain(s);
        assert forall j :: 0 <= j < |nn| ==> q[j] == nn[j];
        assert forall j :: 0 <= j < |nn| ==> nn[j][i].Plain? && nn[j][i].scalar.Num? && nn[j][i].scalar.kind == k;
        assert forall j :: 0 <= j < |q| ==> q[j][i].Plain? && q[j][i].scalar.Num? && q[j][i].scalar.kind == k;
    }
  }

  lemma {:induction false} NonNullRowsEmpty(cols: seq<Row>, i: int)
    requires HasColumn(cols, i)
    ensures |NonNullRows(cols, i)| == 0 <==> AllNull(cols, i)
  {
    if cols != [] {
      var p := cols[..|cols| - 1];
      NonNullRowsEmpty(p, i);
      assert forall j :: 0 <= j < |p| ==> p[j] == cols[j];
    }
  }

  lemma {:induction false} FirstNonNullKindNone(cols: seq<Row>, i: int)
    requires HasColumn(cols, i)
    ensures FirstNonNullKind(cols, i).None? <==> AllNull(cols, i)
  {
    if cols != [] {
      FirstNonNullKindNone(cols[1..], i);
      assert forall j :: 1 <= j < |cols| ==> cols[j] == cols[1..][j - 1];
    }
  }

  lemma {:induction false} NonNullTotalAppend(cols: seq<Row>, row: Row, i: int)
    requires HasColumn(cols, i) && 0 <= i < |row|
    ensures HasColumn(cols + [row], i)
    ensures NonNullTotal(cols + [row], i) == NonNullTotal(cols, i) + NonNullTotal([row], i)
  {
    if cols != [] {
      assert (cols + [row])[1..] == cols[1..] + [row];
      NonNullTotalAppend(cols[1..], row, i);
    }
  }

  /** Summing the unwrapped non-null rows is summing the non-null values. */
  lemma {:induction false} NonNullRowsSum(cols: seq<Row>, i: int)
    requires HasColumn(cols, i)
    ensures HasColumn(NonNullRows(cols, i), i)
    ensures SumColumn(NonNullRows(cols, i), i) == NonNullTotal(cols, i)
  {
    NonNullRowsColumn(cols, i);
    if cols != [] {
      var p := cols[..|cols| - 1];
      var last := cols[|cols| - 1];
      NonNullRowsSum(p, i);
      NonNullRowsColumn(p, i);
      assert cols == p + [last];
      NonNullTotalAppend(p, last, i);
      match Unwrapped(last[i])
      case None =>
      case Some(s) =>
        var q := NonNullRows(p, i) + [last[i := Plain(s)]];
        assert q[..|q| - 1] == NonNullRows(p, i);
    }
  }

  /** The sum of non-null values does not depend on the order of the rows. */
  lemma {:induction false} NonNullTotalPermutation(a: seq<Row>, b: seq<Row>, i: int)
    requires HasColumn(a, i) && HasColumn(b, i)
    requires multiset(a) == multiset(b)
    ensures NonNullTotal(a, i) == NonNullTotal(b, i)
    decreases |a|
  {
    if a == [] {
      assert |b| == |multiset(b)| == 0;
    } else {
      assert a[0] in multiset(b);
      var j :| 0 <= j < |b| && b[j] == a[0];
      var rest := b[..j] + b[j + 1..];
      RemoveOne(a, b, j);
      NonNullTotalPermutation(a[1..], rest, i);
      NonNullTotalRemove(b, j, i);
    }
  }

  lemma RemoveOne(a: seq<Row>, b: seq<Row>, j: int)
    requires a != [] && 0 <= j < |b| && b[j] == a[0] && multiset(a) == multiset(b)
    ensures multiset(a[1..]) == multiset(b[..j] + b[j + 1..])
  {
    assert a == [a[0]] + a[1..];
    assert b == b[..j] + [b[j]] + b[j + 1..];
    assert multiset(b) == multiset(b[..j]) + multiset([b[j]]) + multiset(b[j + 1..]);
    assert multiset(b[..j] + b[j + 1..]) == multiset(b[..j]) + multiset(b[j + 1..]);
    assert multiset(a) == multiset([a[0]]) + multiset(a[1..]);
    assert multiset(a[1..]) == multiset(a) - multiset([a[0]]);
  }

  lemma NonNullTotalRemove(b: seq<Row>, j: int, i: int)
    requires HasColumn(b, i) && 0 <= j < |b|
    ensures HasColumn(b[..j] + b[j + 1..], i)
    ensures NonNullTotal(b, i) == NonNullTotal([b[j]], i) + NonNullTotal(b[..j] + b[j + 1..], i)
  {
    assert b == b[..j] + ([b[j]] + b[j + 1..]);
    NonNullTotalConcat(b[..j], [b[j]] + b[j + 1..], i);
    NonNullTotalConcat([b[j]], b[j + 1..], i);
    NonNullTotalConcat(b[..j], b[j + 1..], i);
  }

  lemma {:induction false} NonNullTotalConcat(x: seq<Row>, y: seq<Row>, i: int)
    requires HasColumn(x, i) && HasColumn(y, i)
    ensures HasColumn(x + y, i)
    ensures NonNullTotal(x + y, i) == NonNullTotal(x, i) + NonNullTotal(y, i)
  {
    if x == [] {
      assert x + y == y;
    } else {
      var xy := x + y;
      assert xy[0] == x[0];
      assert xy[1..] == x[1..] + y;
      NonNullTotalConcat(x[1..], y, i);
      assert NonNullTotal(xy, i) == NonNullTotal([x[0]], i) + NonNullTotal(xy[1..], i);
      assert NonNullTotal(x, i) == NonNullTotal([x[0]], i) + NonNullTotal(x[1..], i);
    }
  }

  /** Every non-null value of column `i` has kind `k`. */
  predicate Uniform(cols: seq<Row>, i: int, k: Kind)
    requires HasColumn(cols, i)
  {
    forall j :: 0 <= j < |cols| ==> NullOrKind(cols[j][i], k)
  }

  lemma {:induction false} FirstNonNullKindUniform(cols: seq<Row>, i: int, k: Kind)
    requires HasColumn(cols, i) && Uniform(cols, i, k) && !AllNull(cols, i)
    ensures FirstNonNullKind(cols, i) == Some(k)
  {
    if Unwrapped(cols[0][i]).None? {
      assert !AllNull(cols[1..], i) by {
        var j :| 0 <= j < |cols| && Unwrapped(cols[j][i]).Some?;
        assert cols[1..][j - 1] == cols[j];
      }
      assert forall j :: 0 <= j < |cols| - 1 ==> cols[1..][j] == cols[j + 1];
      FirstNonNullKindUniform(cols[1..], i, k);
    }
  }

  /** Shard order does not matter: when some value is non-null and all non-null
      values share one kind, any reordering of the rows merges to the same
      result. */
  lemma AggregateOrderIndependent(c: Count, cols: seq<Row>, cols': seq<Row>, k: Kind)
    requires |cols| > 0 && HasColumn(cols, c.countInfo.index) && multiset(cols) == multiset(cols')
    requires Uniform(cols, c.countInfo.index, k) && !AllNull(cols, c.countInfo.index)
    ensures WellTyped(cols, c.countInfo.index)
    ensures |cols'| > 0 && HasColumn(cols', c.countInfo.index) && WellTyped(cols', c.countInfo.index)
    ensures c.Aggregate(cols) == c.Aggregate(cols')
  {
    var i := c.countInfo.index;
    assert |cols'| > 0 by {
      assert cols[0] in multiset(cols');
    }
    assert forall r :: r in cols' ==> r in cols by {
      forall r | r in cols' ensures r in cols {
        assert r in multiset(cols');
      }
    }
    assert forall j :: 0 <= j < |cols'| ==> cols'[j] in cols;
    assert forall r :: r in cols ==> r in cols' by {
      forall r | r in cols ensures r in cols' {
        assert r in multiset(cols);
      }
    }
    assert Uniform(cols', i, k) by {
      forall j | 0 <= j < |cols'| ensures NullOrKind(cols'[j][i], k) {
        var j' :| 0 <= j' < |cols| && cols[j'] == cols'[j];
      }
    }
    assert !AllNull(cols', i) by {
      var j :| 0 <= j < |cols| && Unwrapped(cols[j][i]).Some?;
      assert cols[j] in cols';
      var j' :| 0 <= j' < |cols'| && cols'[j'] == cols[j];
    }
    FirstNonNullKindUniform(cols, i, k);
    FirstNonNullKindUniform(cols', i, k);
    NonNullTotalPermutation(cols, cols', i);
  }

  /** Without a non-null value the result is the first row's NULL wrapper, so
      it does depend on the order of the rows: two NULLs of different kinds
      give two different wrappers once swapped. */
  lemma AllNullDependsOnOrder()
    ensures var a := [[Null(false, Num(Int64, 0))], [Null(false, Num(Float64, 0))]];
            var b := [a[1], a[0]];
            var c := NewCount(ColumnInfo(0, "id", "COUNT", "COUNT(id)"));
            multiset(a) == multiset(b) &&
            c.Aggregate(a) == Success(Null(false, Num(Int64, 0))) &&
            c.Aggregate(b) == Success(Null(false, Num(Float64, 0)))
  {
    var a := [[Null(false, Num(Int64, 0))], [Null(false, Num(Float64, 0))]];
    var b := [a[1], a[0]];
    assert a == [a[0]] + [a[1]] && b == [a[1]] + [a[0]];
  }

  // ---------------------------------------------------------------------------
  // The concrete cases of the aggregator's own test table

  const CountById := ColumnInfo(0, "id", "COUNT", "COUNT(id)")

  lemma CountAddsPartialCounts()
    ensures NewCount(CountById).Aggregate(
              [[Plain(Num(Int64, 10))], [Plain(Num(Int64, 20))], [Plain(Num(Int64, 30))]])
            == Success(Plain(Num(Int64, 60)))
  {
    var cols := [[Plain(Num(Int64, 10))], [Plain(Num(Int64, 20))], [Plain(Num(Int64, 30))]];
    assert Unwrapped(cols[0][0]).Some?;
  }

  lemma CountRejectsStrings()
    ensures NewCount(CountById).Aggregate([[Plain(Str("1"))], [Plain(Str("3"))]])
            == Failure(AggregateFuncNotFound)
  {
    var cols := [[Plain(Str("1"))], [Plain(Str("3"))]];
    assert Unwrapped(cols[0][0]).Some?;
  }

  lemma CountRejectsBadIndex()
    ensures NewCount(ColumnInfo(20, "id", "COUNT", "COUNT(id)")).Aggregate(
              [[Plain(Num(Int64, 10))], [Plain(Num(Int64, 20))], [Plain(Num(Int64, 30))]])
            == Failure(InvalidAggregateColumnIndex)
  {
  }

  lemma CountSkipsNullOfOtherKind()
    ensures NewCount(CountById).Aggregate(
              [[Null(true, Num(Int64, 4))], [Null(false, Num(Float64, 0))], [Null(true, Num(Int64, 7))]])
            == Success(Plain(Num(Int64, 11)))
  {
    var cols := [[Null(true, Num(Int64, 4))], [Null(false, Num(Float64, 0))], [Null(true, Num(Int64, 7))]];
    assert Unwrapped(cols[0][0]).Some?;
    assert cols[1..][1..] == [cols[2]];
  }

  lemma CountAllNullReturnsFirst()
    ensures NewCount(CountById).Aggregate(
              [[Null(false, Num(Int64, 0))], [Null(false, Num(Int64, 0))], [Null(false, Num(Int64, 0))]])
            == Success(Null(false, Num(Int64, 0)))
  {
  }

  lemma CountValidWrappers()
    ensures NewCount(CountById).Aggregate(
              [[Null(true, Num(Int64, 8))], [Null(true, Num(Int64, 9))], [Null(true, Num(Int64, 8))]])
            == Success(Plain(Num(Int64, 25)))
  {
    var cols := [[Null(true, Num(Int64, 8))], [Null(true, Num(Int64, 9))], [Null(true, Num(Int64, 8))]];
    assert Unwrapped(cols[0][0]).Some?;
  }

  lemma CountMixedWrappersAndPlain()
    ensures NewCount(CountById).Aggregate(
              [[Null(true, Num(Int64, 8))], [Null(false, Num(Int64, 0))], [Plain(Num(Int64, 8))]])
            == Success(Plain(Num(Int64, 16)))
  {
    var cols := [[Null(true, Num(Int64, 8))], [Null(false, Num(Int64, 0))], [Plain(Num(Int64, 8))]];
    assert Unwrapped(cols[0][0]).Some?;
    assert cols[1..][1..] == [cols[2]];
  }
}
