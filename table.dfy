/**
 * The data view every node holds: a sequence of rows of exact numbers (the
 * `DataFrame.values` array), the column operations the tree code uses
 * (`data[:, j]`, `unique`, boolean-mask selection, `len`), and the small
 * arithmetic over a column (sum, mean) that the regressor needs.
 */
module Table {

  /** One row of `DataFrame.values`; class labels are encoded as numbers too. */
  type Row = seq<real>

  /** Every row has `width` cells: the table is rectangular. */
  ghost predicate Rectangular(data: seq<Row>, width: nat) {
    forall r :: r in data ==> |r| == width
  }

  /** `data[:, j]`. */
  function Column(data: seq<Row>, j: nat): (col: seq<real>)
    requires forall r :: r in data ==> j < |r|
    ensures |col| == |data|
    ensures forall i :: 0 <= i < |data| ==> col[i] == data[i][j]
  {
    if data == [] then [] else [data[0][j]] + Column(data[1..], j)
  }

  /** The values `numpy.unique` returns, as a set. */
  function Distinct(s: seq<real>): set<real> {
    if s == [] then {} else {s[0]} + Distinct(s[1..])
  }

  /** `unique` keeps exactly the values that occur. */
  lemma {:induction false} DistinctMembers(s: seq<real>)
    ensures forall x :: x in Distinct(s) <==> x in s
  {
    if s != [] {
      DistinctMembers(s[1..]);
      assert forall x :: x in s <==> x == s[0] || x in s[1..];
    }
  }

  /** The comparison a boolean mask applies to one column. */
  datatype Test = Eq(v: real) | Ne(v: real) | Ge(v: real) | Lt(v: real)

  predicate Holds(t: Test, x: real) {
    match t
    case Eq(v) => x == v
    case Ne(v) => x != v
    case Ge(v) => x >= v
    case Lt(v) => x < v
  }

  /** The complementary mask: `==` against `!=`, `>=` against `<`. */
  function Negate(t: Test): (n: Test)
    ensures forall x :: Holds(n, x) == !Holds(t, x)
  {
    match t
    case Eq(v) => Ne(v)
    case Ne(v) => Eq(v)
    case Ge(v) => Lt(v)
    case Lt(v) => Ge(v)
  }

  /** `data[data[:, j] <op> v]`: the rows whose column `j` passes the test, in stored order. */
  function Select(data: seq<Row>, j: nat, t: Test): (sel: seq<Row>)
    requires forall r :: r in data ==> j < |r|
    ensures |sel| <= |data|
    ensures forall r {:trigger r in sel} :: r in sel <==> r in data && Holds(t, r[j])
  {
    if data == [] then []
    else (if Holds(t, data[0][j]) then [data[0]] else []) + Select(data[1..], j, t)
  }

  /** `a` is `b` with some elements left out, the rest kept in order. */
  ghost predicate IsSubsequence<T>(a: seq<T>, b: seq<T>)
    decreases |b|
  {
    if b == [] then a == []
    else (a != [] && a[0] == b[0] && IsSubsequence(a[1..], b[1..])) || IsSubsequence(a, b[1..])
  }

  /** A mask and its complement split the rows exactly: every row lands on one side. */
  lemma {:induction false} SelectPartitions(data: seq<Row>, j: nat, t: Test)
    requires forall r :: r in data ==> j < |r|
    ensures multiset(Select(data, j, t)) + multiset(Select(data, j, Negate(t))) == multiset(data)
    ensures |Select(data, j, t)| + |Select(data, j, Negate(t))| == |data|
  {
    if data != [] {
      assert data == [data[0]] + data[1..];
      SelectPartitions(data[1..], j, t);
    }
  }

  /** Each side of a mask keeps the stored order of the rows. */
  lemma {:induction false} SelectKeepsOrder(data: seq<Row>, j: nat, t: Test)
    requires forall r :: r in data ==> j < |r|
    ensures IsSubsequence(Select(data, j, t), data)
  {
    if data != [] {
      SelectKeepsOrder(data[1..], j, t);
      var rest := Select(data[1..], j, t);
      if Holds(t, data[0][j]) {
        assert Select(data, j, t) == [data[0]] + rest;
        assert ([data[0]] + rest)[1..] == rest;
      } else {
        assert Select(data, j, t) == rest;
      }
    }
  }

  /** Selecting from a rectangular table gives a rectangular table. */
  lemma SelectRectangular(data: seq<Row>, j: nat, t: Test, width: nat)
    requires Rectangular(data, width) && j < width
    ensures Rectangular(Select(data, j, t), width)
  {
  }

  /** `len(data[data[:, j] == c])`: how many rows carry the value `c` in column `j`. */
  function CountEq(data: seq<Row>, j: nat, c: real): (n: nat)
    requires forall r :: r in data ==> j < |r|
    ensures n <= |data|
    ensures n == 0 <==> forall r :: r in data ==> r[j] != c
  {
    var sel := Select(data, j, Eq(c));
    assert sel != [] ==> sel[0] in sel;
    assert forall r :: r in data && r[j] == c ==> r in sel;
    |sel|
  }

  /** The two values of a column with at least two distinct values: `unique(col)[0]` and `[1]`. */
  function Smallest(s: seq<real>): (m: real)
    requires s != []
    ensures m in s && forall x :: x in s ==> m <= x
  {
    if |s| == 1 then s[0]
    else
      var m' := Smallest(s[1..]);
      assert forall x :: x in s ==> x == s[0] || x in s[1..];
      if s[0] <= m' then s[0] else m'
  }

  /** The values of `s` other than `x`, in order. */
  function Without(s: seq<real>, x: real): (w: seq<real>)
    ensures forall y :: y in w <==> y in s && y != x
  {
    if s == [] then [] else (if s[0] == x then [] else [s[0]]) + Without(s[1..], x)
  }

  /** A non-empty sequence either holds one value only or a value other than its smallest. */
  lemma OneValueOrSecond(s: seq<real>)
    requires s != []
    ensures |Distinct(s)| <= 1 || Without(s, Smallest(s)) != []
  {
    var m := Smallest(s);
    DistinctMembers(s);
    if Without(s, m) == [] {
      assert Distinct(s) <= {m};
      assert |Distinct(s) - {m}| + |Distinct(s) * {m}| == |Distinct(s)|;
    }
  }

  /** A sequence with at least two distinct values has a value other than its smallest. */
  lemma TwoDistinctHasSecond(s: seq<real>)
    requires |Distinct(s)| >= 2
    ensures s != [] && Without(s, Smallest(s)) != []
  {
    if s != [] {
      OneValueOrSecond(s);
    }
  }

  /** `unique(col)[0]`, the smallest value. */
  function FirstValue(s: seq<real>): real
    requires |Distinct(s)| >= 2
  {
    TwoDistinctHasSecond(s);
    Smallest(s)
  }

  /** `unique(col)[1]`, the second smallest value. */
  function SecondValue(s: seq<real>): (v: real)
    requires |Distinct(s)| >= 2
    ensures v in s && FirstValue(s) < v
    ensures forall x :: x in s && x != FirstValue(s) ==> v <= x
  {
    TwoDistinctHasSecond(s);
    Smallest(Without(s, Smallest(s)))
  }

  /** Two different values in a column make at least two distinct values. */
  lemma TwoValuesDistinct(s: seq<real>, a: real, b: real)
    requires a in s && b in s && a != b
    ensures |Distinct(s)| >= 2
  {
    var d := Distinct(s);
    DistinctMembers(s);
    assert {a, b} <= d;
    assert |d - {a, b}| + |{a, b}| == |d|;
  }

  /** With exactly two distinct values every value is the first or the second. */
  lemma ExactlyTwoValues(s: seq<real>, x: real)
    requires |Distinct(s)| == 2 && x in s
    ensures x == FirstValue(s) || x == SecondValue(s)
  {
    var a, b := FirstValue(s), SecondValue(s);
    var d := Distinct(s);
    DistinctMembers(s);
    assert {a, b} <= d;
    assert |d - {a, b}| + |{a, b}| == |d|;
    assert x in d;
    assert d - {a, b} == {};
  }

  /** The candidate threshold between stored rows `i` and `i + 1`: the midpoint of their values in column `j`. */
  function Midpoint(data: seq<Row>, j: nat, i: nat): real
    requires i + 1 < |data|
    requires forall r :: r in data ==> j < |r|
  {
    (data[i][j] + data[i + 1][j]) / 2.0
  }

  function Sum(s: seq<real>): real {
    if s == [] then 0.0 else s[0] + Sum(s[1..])
  }

  /** `numpy.mean` of a non-empty column. */
  function Mean(s: seq<real>): real
    requires s != []
  {
    Sum(s) / (|s| as real)
  }
}
