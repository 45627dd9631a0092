/**
  The value universe shared by the aggregators and the two mergers: the scalar
  values a shard row can hold (with SQL-nullable wrappers), column descriptors,
  the error taxonomy, and the abstract shard row source.
 */
module Values {

  datatype Option<+T> = None | Some(value: T)

  /** The errors of the merge layer; `SourceError` stands for any error a shard
      row source itself reports (scan, column metadata or close failures). */
  datatype Error =
    | EmptyRows
    | RowsIsNull
    | RowsClosed
    | ScanNotNext
    | InvalidAggregateColumnIndex
    | AggregateFuncNotFound
    | AggregateHasEmptyRows
    | SourceError(message: string)

  datatype Result<+T> = Success(value: T) | Failure(error: Error)

  /** The numeric runtime kinds that have an entry in the COUNT table. */
  datatype NumKind =
    | Int | Int8 | Int16 | Int32 | Int64
    | Uint | Uint8 | Uint16 | Uint32 | Uint64
    | Float32 | Float64

  /** The runtime kind of a non-null scalar. */
  datatype Kind = Numeric(numKind: NumKind) | String | Bool

  /** A plain scalar. Numbers carry their runtime kind and a mathematical
      integer; float kinds are restricted to integral values. */
  datatype Scalar = Num(kind: NumKind, n: int) | Str(s: string) | Boolean(b: bool)

  /** A value scanned out of a shard row: a plain scalar, or an SQL-nullable
      wrapper whose `wrapped` field fixes the wrapper's kind (and holds the
      payload when `valid`). */
  datatype Value = Plain(scalar: Scalar) | Null(valid: bool, wrapped: Scalar)

  type Row = seq<Value>

  function KindOf(s: Scalar): Kind
  {
    match s
    case Num(k, _) => Numeric(k)
    case Str(_) => String
    case Boolean(_) => Bool
  }

  /** The scalar a value stands for, or None for an SQL NULL. */
  function Unwrapped(v: Value): (r: Option<Scalar>)
    ensures r.None? <==> v.Null? && !v.valid
    ensures v.Plain? ==> r == Some(v.scalar)
    ensures v.Null? && v.valid ==> r == Some(v.wrapped)
  {
    match v
    case Plain(s) => Some(s)
    case Null(valid, s) => if valid then Some(s) else None
  }

  /** A result column descriptor. `index` is the position of the source value in
      each shard row; `selectName` is the externally visible column name. */
  datatype ColumnInfo = ColumnInfo(index: int, name: string, aggregateFunc: string, selectName: string)

  /** Column type metadata of a shard, treated as opaque. */
  datatype ColumnType = ColumnType(databaseTypeName: string)

  /** One shard's row source: its column metadata (or the error reporting it),
      the rows it yields, the error a scan of it reports instead of rows (if
      any), and the error its Close reports (if any). */
  datatype Shard = Shard(
    columnTypes: Result<seq<ColumnType>>,
    rows: seq<Row>,
    scanError: Option<Error>,
    closeError: Option<Error>)

  /** The Some entries of a list that has no None entry. */
  function Present(results: seq<Option<Shard>>): (shards: seq<Shard>)
    requires None !in results
    ensures |shards| == |results|
    ensures forall i :: 0 <= i < |results| ==> results[i] == Some(shards[i])
  {
    if results == [] then []
    else [results[0].value] + Present(results[1..])
  }
}
