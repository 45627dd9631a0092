/**
  Group-by keys and their comparison: a key is the list of a row's group-by
  column values, and keys are ordered lexicographically, position by
  position, with a per-kind comparison of the values.
 */
module GroupKey {
  import opened Values

  type Key = seq<Value>

  // ---------------------------------------------------------------------------
  // Per-kind comparisons

  /** The generic ordered comparison, for two numbers of one kind. */
  function CompareNum(i: int, j: int): (r: int)
    ensures r == -1 <==> i < j
    ensures r == 0 <==> i == j
    ensures r == 1 <==> i > j
  {
    if i < j then -1 else if i > j then 1 else 0
  }

  /** Go's `<` on strings: lexicographic, a proper prefix first. Comparing code
      points orders strings as comparing their UTF-8 bytes does. */
  predicate StrLess(a: string, b: string)
    decreases |a|
  {
    if a == [] then b != []
    else if b == [] then false
    else if a[0] != b[0] then a[0] < b[0]
    else StrLess(a[1..], b[1..])
  }

  lemma {:induction false} StrLessIrreflexive(a: string)
    ensures !StrLess(a, a)
    decreases |a|
  {
    if a != [] {
      StrLessIrreflexive(a[1..]);
    }
  }

  lemma {:induction false} StrLessAsymmetric(a: string, b: string)
    ensures StrLess(a, b) ==> !StrLess(b, a)
    decreases |a|
  {
    if a != [] && b != [] && a[0] == b[0] {
      StrLessAsymmetric(a[1..], b[1..]);
    }
  }

  lemma {:induction false} StrLessTotal(a: string, b: string)
    ensures a == b || StrLess(a, b) || StrLess(b, a)
    decreases |a|
  {
    if a != [] && b != [] && a[0] == b[0] {
      StrLessTotal(a[1..], b[1..]);
      assert a == [a[0]] + a[1..];
      assert b == [b[0]] + b[1..];
    }
  }

  lemma {:induction false} StrLessTransitive(a: string, b: string, c: string)
    requires StrLess(a, b) && StrLess(b, c)
    ensures StrLess(a, c)
    decreases |a|
  {
    if a != [] && a[0] == b[0] && b[0] == c[0] {
      StrLessTransitive(a[1..], b[1..], c[1..]);
    }
  }

  /** The generic ordered comparison, for two strings. */
  function CompareStr(a: string, b: string): (r: int)
    ensures r == -1 <==> StrLess(a, b)
    ensures r == 0 <==> a == b
    ensures r == 1 <==> StrLess(b, a)
  {
    StrLessIrreflexive(a);
    StrLessAsymmetric(a, b);
    StrLessTotal(a, b);
    if StrLess(a, b) then -1 else if StrLess(b, a) then 1 else 0
  }

  /** Booleans order false before true. */
  function CompareBool(i: bool, j: bool): (r: int)
    ensures r == 0 <==> i == j
    ensures r == 1 <==> i && !j
    ensures r == -1 <==> !i && j
  {
    if i == j then 0 else if i && !j then 1 else -1
  }

  /** The comparison the kind of the first value selects, applied to two values
      of that kind. */
  function CompareScalar(x: Scalar, y: Scalar): (r: int)
    requires KindOf(x) == KindOf(y)
    ensures r == -1 || r == 0 || r == 1
    ensures r == 0 <==> x == y
  {
    match x
    case Num(_, i) => CompareNum(i, y.n)
    case Str(s) => CompareStr(s, y.s)
    case Boolean(b) => CompareBool(b, y.b)
  }

  lemma ScalarAntisymmetric(x: Scalar, y: Scalar)
    requires KindOf(x) == KindOf(y)
    ensures CompareScalar(y, x) == -CompareScalar(x, y)
  {
  }

  lemma ScalarTransitive(x: Scalar, y: Scalar, z: Scalar)
    requires KindOf(x) == KindOf(y) && KindOf(y) == KindOf(z)
    requires CompareScalar(x, y) == -1 && CompareScalar(y, z) == -1
    ensures CompareScalar(x, z) == -1
  {
    if x.Str? {
      StrLessTransitive(x.s, y.s, z.s);
    }
  }

  // ---------------------------------------------------------------------------
  // Key comparison

  /** The keys a comparison can be applied to without a failed type assertion or
      an out-of-range index: it walks the first key's positions until two values
      differ, and at every position it reaches both values are plain and of the
      same kind. */
  predicate Comparable(a: Key, b: Key)
    decreases |a|
  {
    a == [] ||
    (b != [] && a[0].Plain? && b[0].Plain? &&
     KindOf(a[0].scalar) == KindOf(b[0].scalar) &&
     (a[0] == b[0] ==> Comparable(a[1..], b[1..])))
  }

  /** Lexicographic comparison: the first position whose values differ decides. */
  function Compare(a: Key, b: Key): (r: int)
    requires Comparable(a, b)
    ensures r == -1 || r == 0 || r == 1
    decreases |a|
  {
    if a == [] then 0
    else
      var c := CompareScalar(a[0].scalar, b[0].scalar);
      if c != 0 then c else Compare(a[1..], b[1..])
  }

  /** Walks the positions of the first key and returns the first non-zero
      comparison of values. */
  method CompareKey(a: Key, b: Key) returns (r: int)
    requires Comparable(a, b)
    ensures r == Compare(a, b)
  {
    var i := 0;
    while i < |a|
      invariant 0 <= i <= |a| && i <= |b|
      invariant Comparable(a[i..], b[i..])
      invariant Compare(a, b) == Compare(a[i..], b[i..])
    {
      assert a[i..][0] == a[i] && b[i..][0] == b[i];
      var res := CompareScalar(a[i].scalar, b[i].scalar);
      if res != 0 {
        return res;
      }
      assert a[i..][1..] == a[i + 1..];
      assert b[i..][1..] == b[i + 1..];
      i := i + 1;
    }
    return 0;
  }

  /** Equal-length comparable keys compare as 0 exactly when they are equal: an
      ordered map under this comparison identifies keys as equality does. */
  lemma {:induction false} CompareZeroIffEqual(a: Key, b: Key)
    requires Comparable(a, b) && |a| == |b|
    ensures Compare(a, b) == 0 <==> a == b
    decreases |a|
  {
    if a != [] && a[0] == b[0] {
      CompareZeroIffEqual(a[1..], b[1..]);
      assert a == [a[0]] + a[1..];
      assert b == [b[0]] + b[1..];
    }
  }

  /** Swapping two equal-length keys keeps them comparable and negates the
      result. */
  lemma {:induction false} CompareAntisymmetric(a: Key, b: Key)
    requires Comparable(a, b) && |a| == |b|
    ensures Comparable(b, a)
    ensures Compare(b, a) == -Compare(a, b)
    decreases |a|
  {
    if a != [] {
      ScalarAntisymmetric(a[0].scalar, b[0].scalar);
      if a[0] == b[0] {
        CompareAntisymmetric(a[1..], b[1..]);
      }
    }
  }

  lemma {:induction false} CompareTransitive(a: Key, b: Key, c: Key)
    requires Comparable(a, b) && Comparable(b, c) && Comparable(a, c)
    requires Compare(a, b) == -1 && Compare(b, c) == -1
    ensures Compare(a, c) == -1
    decreases |a|
  {
    var x, y, z := a[0].scalar, b[0].scalar, c[0].scalar;
    if a[0] == b[0] && b[0] == c[0] {
      CompareTransitive(a[1..], b[1..], c[1..]);
    } else if a[0] != b[0] && b[0] != c[0] {
      ScalarTransitive(x, y, z);
    }
  }

  /** The first position at which two keys differ decides their comparison. */
  lemma {:induction false} CompareFirstDifference(a: Key, b: Key, k: int)
    requires Comparable(a, b)
    requires 0 <= k < |a| && k < |b| && a[..k] == b[..k] && a[k] != b[k]
    requires a[k].Plain? && b[k].Plain? && KindOf(a[k].scalar) == KindOf(b[k].scalar)
    ensures Compare(a, b) == CompareScalar(a[k].scalar, b[k].scalar)
    decreases k
  {
    if k > 0 {
      assert a[0] == a[..k][0] && b[0] == b[..k][0];
      assert a[1..][..k - 1] == a[..k][1..];
      assert b[1..][..k - 1] == b[..k][1..];
      CompareFirstDifference(a[1..], b[1..], k - 1);
    }
  }
}
