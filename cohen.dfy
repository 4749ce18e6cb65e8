/**
 * Cohen's cardinality estimate over MinHash signatures, `_Cohen` and
 * `_Find_Cardinality_Cohen` (Code/homopa.py, Code/HoMoPaD/homopa.py).
 * The column minima are integers; the estimate is computed over exact reals.
 */
module Cohen {
  import opened Wrappers
  import opened Engine

  /** `_max_hash`, the largest 32-bit hash value. */
  const MaxHash: int := 0xFFFF_FFFF

  /** The length of `zip(*sigs)`: the shortest signature, and 0 without signatures. */
  function ZipLen(sigs: seq<seq<int>>): (r: nat)
    ensures forall k :: 0 <= k < |sigs| ==> r <= |sigs[k]|
    ensures |sigs| > 0 ==> exists k :: 0 <= k < |sigs| && r == |sigs[k]|
  {
    if |sigs| == 0 then 0
    else if |sigs| == 1 then |sigs[0]|
    else
      var m := ZipLen(sigs[..|sigs| - 1]);
      var l := |sigs[|sigs| - 1]|;
      if m <= l then m else l
  }

  /** `min(column)` for the i-th column of the transposed signatures. */
  function ColMin(sigs: seq<seq<int>>, i: nat): (r: int)
    requires |sigs| > 0 && i < ZipLen(sigs)
    ensures forall k :: 0 <= k < |sigs| ==> r <= sigs[k][i]
    ensures exists k :: 0 <= k < |sigs| && r == sigs[k][i]
  {
    if |sigs| == 1 then sigs[0][i]
    else
      var init := sigs[..|sigs| - 1];
      var m := ColMin(init, i);
      var x := sigs[|sigs| - 1][i];
      assert forall k :: 0 <= k < |init| ==> init[k] == sigs[k];
      if m <= x then m else x
  }

  /** `[min(column) for column in zip(*sigs)]`. */
  function Minima(sigs: seq<seq<int>>): seq<int> {
    if |sigs| == 0 then []
    else seq(ZipLen(sigs), i requires 0 <= i < ZipLen(sigs) => ColMin(sigs, i))
  }

  function Sum(xs: seq<int>): int {
    if |xs| == 0 then 0 else Sum(xs[..|xs| - 1]) + xs[|xs| - 1]
  }

  /** Python's `int()` on a finite float: truncation toward zero. */
  function Trunc(x: real): (r: int)
    ensures 0.0 <= x ==> 0 <= r && r as real <= x < r as real + 1.0
    ensures x < 0.0 ==> r <= 0 && r as real - 1.0 < x <= r as real
  {
    if x >= 0.0 then x.Floor else -((-x).Floor)
  }

  /**
   * `int(num_perm / (total_sum / _max_hash) - 1)`.  The division runs on a
   * NumPy float, so a zero sum gives infinity (OverflowError in `int()`)
   * or, with zero permutations, NaN (ValueError in `int()`).
   */
  function Cardinality(sigs: seq<seq<int>>, numPerm: int): Result<int> {
    var s := Sum(Minima(sigs));
    if s == 0 then (if numPerm == 0 then Err(ValueError) else Err(OverflowError))
    else Ok(Trunc((numPerm as real) * (MaxHash as real) / (s as real) - 1.0))
  }

  /** The signatures `item[2]` of hashed sensor rows. */
  function Signatures(rows: seq<SensorRow>): seq<seq<int>> {
    seq(|rows|, i requires 0 <= i < |rows| => rows[i].objs)
  }

  /** `_Find_Cardinality_Cohen(combined_data, num_perm, 0)` on hashed rows. */
  function FindCardinality(rows: seq<SensorRow>, numPerm: int): Result<int> {
    Cardinality(Signatures(rows), numPerm)
  }

  // ---------------------------------------------------------------- properties

  /** The minima have the length of the shortest signature, and each is the least entry of its column. */
  lemma MinimaRule(sigs: seq<seq<int>>)
    ensures |Minima(sigs)| == ZipLen(sigs)
    ensures forall k :: 0 <= k < |sigs| ==> |Minima(sigs)| <= |sigs[k]|
    ensures forall i, k :: 0 <= i < |Minima(sigs)| && 0 <= k < |sigs| ==> Minima(sigs)[i] <= sigs[k][i]
    ensures forall i :: 0 <= i < |Minima(sigs)| ==> exists k :: 0 <= k < |sigs| && Minima(sigs)[i] == sigs[k][i]
  {
  }

  /** One more signature never raises a column minimum, and never lengthens the vector. */
  lemma MinimaAdd(sigs: seq<seq<int>>, s: seq<int>)
    requires |sigs| > 0
    ensures |Minima(sigs + [s])| <= |Minima(sigs)|
    ensures forall i :: 0 <= i < |Minima(sigs + [s])| ==> Minima(sigs + [s])[i] <= Minima(sigs)[i]
  {
    var t := sigs + [s];
    assert t[..|t| - 1] == sigs;
    forall i | 0 <= i < |Minima(t)|
      ensures Minima(t)[i] <= Minima(sigs)[i]
    {
      assert t[..|t| - 1] == sigs;
    }
  }

  lemma {:induction false} SumLe(xs: seq<int>, ys: seq<int>)
    requires |xs| == |ys| && forall i :: 0 <= i < |xs| ==> xs[i] <= ys[i]
    ensures Sum(xs) <= Sum(ys)
  {
    if |xs| > 0 {
      SumLe(xs[..|xs| - 1], ys[..|ys| - 1]);
    }
  }

  /** A signature at least as long as the others keeps the vector's length and can only lower its sum. */
  lemma SumShrinks(sigs: seq<seq<int>>, s: seq<int>)
    requires |sigs| > 0 && |s| >= ZipLen(sigs)
    ensures Sum(Minima(sigs + [s])) <= Sum(Minima(sigs))
  {
    var t := sigs + [s];
    assert t[..|t| - 1] == sigs;
    MinimaAdd(sigs, s);
    assert |Minima(t)| == |Minima(sigs)|;
    SumLe(Minima(t), Minima(sigs));
  }

  /**
   * A signature at least as long as the others can only lower the minima,
   * so with a positive sum and non-negative permutations the estimated
   * cardinality never decreases.
   */
  lemma CardinalityGrows(sigs: seq<seq<int>>, s: seq<int>, numPerm: int)
    requires |sigs| > 0 && |s| >= ZipLen(sigs) && numPerm >= 0
    requires Sum(Minima(sigs + [s])) > 0
    ensures Cardinality(sigs, numPerm).Ok? && Cardinality(sigs + [s], numPerm).Ok?
    ensures Cardinality(sigs, numPerm).value <= Cardinality(sigs + [s], numPerm).value
  {
    SumShrinks(sigs, s);
    var a := Sum(Minima(sigs)) as real;
    var b := Sum(Minima(sigs + [s])) as real;
    var top := (numPerm as real) * (MaxHash as real);
    DivAnti(top, a, b);
    TruncMono(top / a - 1.0, top / b - 1.0);
  }

  lemma DivAnti(top: real, a: real, b: real)
    requires 0.0 <= top && 0.0 < b <= a
    ensures top / a <= top / b
  {
    var q := top / a;
    assert q * a == top;
    assert q >= 0.0;
    assert q * b <= q * a;
    assert q <= top / b;
  }

  lemma TruncMono(x: real, y: real)
    requires x <= y
    ensures Trunc(x) <= Trunc(y)
  {
  }
}
