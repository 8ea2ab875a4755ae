/** Partial injections between the rows and the columns of a cost matrix, their total
    cost, and the dual certificate that proves one of them cheapest among the largest. */
module Matching {

  type Matrix = seq<seq<real>>

  /** Number of columns, read off the first row as the solver does. */
  function Cols(cost: Matrix): nat {
    if |cost| == 0 then 0 else |cost[0]|
  }

  ghost predicate Rectangular(cost: Matrix) {
    forall r :: 0 <= r < |cost| ==> |cost[r]| == Cols(cost)
  }

  /** `a[r]` is the column given to row `r`, or -1; no column is given twice. */
  ghost predicate IsMatching(a: seq<int>, rows: nat, cols: nat) {
    && |a| == rows
    && (forall r :: 0 <= r < rows ==> -1 <= a[r] < cols)
    && (forall r, s :: 0 <= r < s < rows && a[r] >= 0 ==> a[r] != a[s])
  }

  function Size(a: seq<int>): nat {
    if |a| == 0 then 0 else Size(a[..|a| - 1]) + if a[|a| - 1] >= 0 then 1 else 0
  }

  /** Sum of the costs of the matched pairs. */
  ghost function Total(cost: Matrix, a: seq<int>): real
    requires |a| <= |cost|
    requires forall r :: 0 <= r < |a| ==> a[r] < |cost[r]|
  {
    if |a| == 0 then 0.0
    else
      var k := |a| - 1;
      Total(cost, a[..k]) + if a[k] >= 0 then cost[k][a[k]] else 0.0
  }

  /** What the tracker asks for: a matching no other matching beats, first in size, then in cost. */
  ghost predicate IsOptimal(cost: Matrix, a: seq<int>)
    requires Rectangular(cost)
  {
    && IsMatching(a, |cost|, Cols(cost))
    && (forall b: seq<int> :: IsMatching(b, |cost|, Cols(cost)) ==>
        Size(b) <= Size(a) && (Size(b) == Size(a) ==> Total(cost, a) <= Total(cost, b)))
  }

  // ----- sums over rows and over columns -----

  ghost function Sum(w: seq<real>): real {
    if |w| == 0 then 0.0 else Sum(w[..|w| - 1]) + w[|w| - 1]
  }

  /** Weights of the matched rows. */
  ghost function RowSum(a: seq<int>, w: seq<real>): real
    requires |a| <= |w|
  {
    if |a| == 0 then 0.0
    else RowSum(a[..|a| - 1], w) + if a[|a| - 1] >= 0 then w[|a| - 1] else 0.0
  }

  /** Weights of the matched columns. */
  ghost function ColSum(a: seq<int>, w: seq<real>): real
    requires forall r :: 0 <= r < |a| ==> a[r] < |w|
  {
    if |a| == 0 then 0.0
    else ColSum(a[..|a| - 1], w) + if a[|a| - 1] >= 0 then w[a[|a| - 1]] else 0.0
  }

  /** `w` with the weight of every matched column set to zero. */
  ghost function Uncovered(a: seq<int>, w: seq<real>): (z: seq<real>)
    ensures |z| == |w|
  {
    seq(|w|, c requires 0 <= c < |w| => if c in a then 0.0 else w[c])
  }

  lemma {:induction false} SumUpdate(w: seq<real>, i: nat, x: real)
    requires i < |w|
    ensures Sum(w[i := x]) == Sum(w) - w[i] + x
  {
    var k := |w| - 1;
    if i == k {
      assert w[i := x][..k] == w[..k];
    } else {
      SumUpdate(w[..k], i, x);
      assert w[i := x][..k] == w[..k][i := x];
    }
  }

  lemma {:induction false} SumOfNonPositive(w: seq<real>)
    requires forall c :: 0 <= c < |w| ==> w[c] <= 0.0
    ensures Sum(w) <= 0.0
    ensures Sum(w) == 0.0 ==> forall c :: 0 <= c < |w| ==> w[c] == 0.0
  {
    if |w| > 0 { SumOfNonPositive(w[..|w| - 1]); }
  }

  lemma {:induction false} SumOfZeros(w: seq<real>)
    requires forall c :: 0 <= c < |w| ==> w[c] == 0.0
    ensures Sum(w) == 0.0
  {
    if |w| > 0 { SumOfZeros(w[..|w| - 1]); }
  }

  /** The matched columns and the uncovered ones split the column weights. */
  lemma {:induction false} ColumnsSplit(a: seq<int>, w: seq<real>)
    requires IsMatching(a, |a|, |w|)
    ensures ColSum(a, w) + Sum(Uncovered(a, w)) == Sum(w)
  {
    if |a| == 0 {
      assert Uncovered(a, w) == w;
    } else {
      var k := |a| - 1;
      var b, x := a[..k], a[k];
      assert a == b + [x];
      ColumnsSplit(b, w);
      if x >= 0 {
        assert x !in b;
        assert Uncovered(a, w) == Uncovered(b, w)[x := 0.0];
        SumUpdate(Uncovered(b, w), x, 0.0);
      } else {
        assert Uncovered(a, w) == Uncovered(b, w);
      }
    }
  }

  lemma {:induction false} SizeIsColSumOfOnes(a: seq<int>, ones: seq<real>)
    requires forall r :: 0 <= r < |a| ==> a[r] < |ones|
    requires forall c :: 0 <= c < |ones| ==> ones[c] == 1.0
    ensures ColSum(a, ones) == Size(a) as real
  {
    if |a| > 0 { SizeIsColSumOfOnes(a[..|a| - 1], ones); }
  }

  lemma {:induction false} SumOfOnes(ones: seq<real>)
    requires forall c :: 0 <= c < |ones| ==> ones[c] == 1.0
    ensures Sum(ones) == |ones| as real
  {
    if |ones| > 0 { SumOfOnes(ones[..|ones| - 1]); }
  }

  lemma {:induction false} SumOfNonNegative(w: seq<real>)
    requires forall c :: 0 <= c < |w| ==> w[c] >= 0.0
    ensures Sum(w) >= 0.0
    ensures Sum(w) == 0.0 ==> forall c :: 0 <= c < |w| ==> w[c] == 0.0
  {
    if |w| > 0 { SumOfNonNegative(w[..|w| - 1]); }
  }

  /** Pigeonhole: a matching has at most as many pairs as columns, and exactly as many only
      when it covers every column. */
  lemma SizeAtMostCols(a: seq<int>, cols: nat)
    requires IsMatching(a, |a|, cols)
    ensures Size(a) <= cols
    ensures Size(a) == cols ==> forall c :: 0 <= c < cols ==> c in a
  {
    var ones := seq(cols, c => 1.0);
    ColumnsSplit(a, ones);
    SizeIsColSumOfOnes(a, ones);
    SumOfOnes(ones);
    var rest := Uncovered(a, ones);
    SumOfNonNegative(rest);
    if Size(a) == cols {
      forall c | 0 <= c < cols ensures c in a {
        assert rest[c] == 0.0;
      }
    }
  }

  lemma {:induction false} SizeAtMostRows(a: seq<int>)
    ensures Size(a) <= |a|
    ensures Size(a) == |a| <==> forall r :: 0 <= r < |a| ==> a[r] >= 0
  {
    if |a| > 0 {
      var k := |a| - 1;
      SizeAtMostRows(a[..k]);
      if Size(a) == |a| {
        forall r | 0 <= r < |a| ensures a[r] >= 0 {
          if r < k { assert a[..k][r] == a[r]; }
        }
      }
    }
  }

  lemma {:induction false} RowSumBound(a: seq<int>, w: seq<real>, rest: seq<real>)
    requires |a| == |w| == |rest|
    requires forall r :: 0 <= r < |a| ==> rest[r] == if a[r] >= 0 then 0.0 else w[r]
    ensures RowSum(a, w) + Sum(rest) == Sum(w)
  {
    if |a| > 0 {
      var k := |a| - 1;
      RowSumPrefix(a[..k], w, w[..k]);
      RowSumBound(a[..k], w[..k], rest[..k]);
    }
  }

  lemma {:induction false} RowSumPrefix(a: seq<int>, w: seq<real>, w': seq<real>)
    requires |a| <= |w| && |a| <= |w'|
    requires forall r :: 0 <= r < |a| ==> w[r] == w'[r]
    ensures RowSum(a, w) == RowSum(a, w')
  {
    if |a| > 0 { RowSumPrefix(a[..|a| - 1], w, w'); }
  }

  // ----- the dual certificate -----

  /** Row and column potentials never exceed a cost. */
  ghost predicate DualFeasible(cost: Matrix, R: seq<real>, Q: seq<real>)
    requires Rectangular(cost)
  {
    && |R| == |cost| && |Q| == Cols(cost)
    && forall r, c :: 0 <= r < |cost| && 0 <= c < Cols(cost) ==> R[r] + Q[c] <= cost[r][c]
  }

  /** Complementary slackness: tight on the pairs, zero off them, and the longer side's
      potentials are nowhere positive. */
  ghost predicate Certified(cost: Matrix, a: seq<int>, R: seq<real>, Q: seq<real>)
    requires Rectangular(cost)
  {
    && IsMatching(a, |cost|, Cols(cost))
    && DualFeasible(cost, R, Q)
    && (forall r :: 0 <= r < |cost| && a[r] >= 0 ==> cost[r][a[r]] == R[r] + Q[a[r]])
    && (forall r :: 0 <= r < |cost| && a[r] < 0 ==> R[r] == 0.0)
    && (forall c :: 0 <= c < Cols(cost) && c !in a ==> Q[c] == 0.0)
    && (|cost| <= Cols(cost) ==>
          (forall r :: 0 <= r < |cost| ==> a[r] >= 0) && (forall c :: 0 <= c < Cols(cost) ==> Q[c] <= 0.0))
    && (Cols(cost) < |cost| ==>
          (forall c :: 0 <= c < Cols(cost) ==> c in a) && (forall r :: 0 <= r < |cost| ==> R[r] <= 0.0))
  }

  lemma {:induction false} TotalAtLeastDual(cost: Matrix, b: seq<int>, R: seq<real>, Q: seq<real>)
    requires Rectangular(cost) && DualFeasible(cost, R, Q)
    requires |b| <= |cost| && forall r :: 0 <= r < |b| ==> b[r] < Cols(cost)
    ensures Total(cost, b) >= RowSum(b, R) + ColSum(b, Q)
  {
    if |b| > 0 { TotalAtLeastDual(cost, b[..|b| - 1], R, Q); }
  }

  lemma {:induction false} TotalIsDual(cost: Matrix, a: seq<int>, R: seq<real>, Q: seq<real>)
    requires Rectangular(cost) && |R| == |cost| && |Q| == Cols(cost)
    requires |a| <= |cost| && forall r :: 0 <= r < |a| ==> a[r] < Cols(cost)
    requires forall r :: 0 <= r < |a| && a[r] >= 0 ==> cost[r][a[r]] == R[r] + Q[a[r]]
    ensures Total(cost, a) == RowSum(a, R) + ColSum(a, Q)
  {
    if |a| > 0 { TotalIsDual(cost, a[..|a| - 1], R, Q); }
  }

  /** Row part of the dual value left to the unmatched rows. */
  ghost function Idle(a: seq<int>, w: seq<real>): (z: seq<real>)
    requires |a| == |w|
    ensures |z| == |w|
  {
    seq(|w|, r requires 0 <= r < |w| => if a[r] >= 0 then 0.0 else w[r])
  }

  /** A certified matching has the greatest size. */
  lemma CertifiedIsLargest(cost: Matrix, a: seq<int>, R: seq<real>, Q: seq<real>, b: seq<int>)
    requires Rectangular(cost) && Certified(cost, a, R, Q)
    requires IsMatching(b, |cost|, Cols(cost))
    ensures Size(b) <= Size(a)
    ensures Size(a) == if |cost| <= Cols(cost) then |cost| else Cols(cost)
  {
    SizeAtMostRows(a);
    SizeAtMostRows(b);
    SizeAtMostCols(a, Cols(cost));
    SizeAtMostCols(b, Cols(cost));
    if Cols(cost) < |cost| { CoversAll(a, Cols(cost)); }
  }

  lemma CoversAll(a: seq<int>, cols: nat)
    requires IsMatching(a, |a|, cols)
    requires forall c :: 0 <= c < cols ==> c in a
    ensures Size(a) == cols
  {
    var ones := seq(cols, c => 1.0);
    ColumnsSplit(a, ones);
    SizeIsColSumOfOnes(a, ones);
    SumOfOnes(ones);
    SumOfZeros(Uncovered(a, ones));
  }

  /** A certified matching costs exactly the dual value. */
  lemma CertifiedTotal(cost: Matrix, a: seq<int>, R: seq<real>, Q: seq<real>)
    requires Rectangular(cost) && Certified(cost, a, R, Q)
    ensures Total(cost, a) == Sum(R) + Sum(Q)
  {
    TotalIsDual(cost, a, R, Q);
    RowSumBound(a, R, Idle(a, R));
    ColumnsSplit(a, Q);
    SumOfZeros(Idle(a, R));
    SumOfZeros(Uncovered(a, Q));
  }

  /** Rows left idle by a matching at no positive potential do not raise the row part of the dual value. */
  lemma IdleRows(b: seq<int>, R: seq<real>)
    requires |b| == |R| && forall r :: 0 <= r < |b| && b[r] < 0 ==> R[r] <= 0.0
    ensures RowSum(b, R) >= Sum(R)
  {
    RowSumBound(b, R, Idle(b, R));
    SumOfNonPositive(Idle(b, R));
  }

  lemma UncoveredColumns(b: seq<int>, Q: seq<real>)
    requires IsMatching(b, |b|, |Q|) && forall c :: 0 <= c < |Q| && c !in b ==> Q[c] <= 0.0
    ensures ColSum(b, Q) >= Sum(Q)
  {
    ColumnsSplit(b, Q);
    SumOfNonPositive(Uncovered(b, Q));
  }

  /** Weak duality for one matching: it costs at least the dual value when whatever it leaves
      unmatched carries no positive potential. */
  lemma TotalAtLeastDualValue(cost: Matrix, b: seq<int>, R: seq<real>, Q: seq<real>)
    requires Rectangular(cost) && DualFeasible(cost, R, Q)
    requires IsMatching(b, |cost|, Cols(cost))
    requires forall r :: 0 <= r < |cost| && b[r] < 0 ==> R[r] <= 0.0
    requires forall c :: 0 <= c < Cols(cost) && c !in b ==> Q[c] <= 0.0
    ensures Total(cost, b) >= Sum(R) + Sum(Q)
  {
    TotalAtLeastDual(cost, b, R, Q);
    IdleRows(b, R);
    UncoveredColumns(b, Q);
  }

  /** Among matchings of the same size, none is cheaper than a certified one. */
  lemma CertifiedIsCheapest(cost: Matrix, a: seq<int>, R: seq<real>, Q: seq<real>, b: seq<int>)
    requires Rectangular(cost) && Certified(cost, a, R, Q)
    requires IsMatching(b, |cost|, Cols(cost)) && Size(b) == Size(a)
    ensures Total(cost, a) <= Total(cost, b)
  {
    CertifiedIsLargest(cost, a, R, Q, b);
    CertifiedTotal(cost, a, R, Q);
    SizeAtMostRows(b);
    SizeAtMostCols(b, Cols(cost));
    TotalAtLeastDualValue(cost, b, R, Q);
  }

  lemma CertifiedIsOptimal(cost: Matrix, a: seq<int>, R: seq<real>, Q: seq<real>)
    requires Rectangular(cost) && Certified(cost, a, R, Q)
    ensures IsOptimal(cost, a)
    ensures Size(a) == if |cost| <= Cols(cost) then |cost| else Cols(cost)
  {
    CertifiedIsLargest(cost, a, R, Q, a);
    forall b: seq<int> | IsMatching(b, |cost|, Cols(cost))
      ensures Size(b) <= Size(a) && (Size(b) == Size(a) ==> Total(cost, a) <= Total(cost, b))
    {
      CertifiedIsLargest(cost, a, R, Q, b);
      if Size(b) == Size(a) { CertifiedIsCheapest(cost, a, R, Q, b); }
    }
  }
}
