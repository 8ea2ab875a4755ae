/** Sub-cell interpolation of the stylus position along one dimension. */
module Coordinate {
  import opened EngineTypes
  import opened StylusGrid
  import opened StylusPeak

  const UNIT: int := 1024
  const HALF: int := 512

  /** Returned when there is no peak. */
  const NO_COOR: int := 0x7FFF_FFFF

  /** Saturation to 16 bits. */
  function Clipped(x: int): (s: int)
    ensures IsShort(s) && (IsShort(x) ==> s == x)
  {
    Max(SHORT_MIN, Min(x, SHORT_MAX))
  }

  /** Offset within the cell from the peak's neighbours. */
  function Triangle(left: int, peak: int, right: int): int {
    if right < left then
      var low := if peak <= right then peak - 1 else right;
      HALF - TruncDiv(TruncDiv((left - low) * UNIT, peak - low), 2)
    else
      var low := if peak <= left then peak - 1 else left;
      HALF + TruncDiv(TruncDiv((right - low) * UNIT, peak - low), 2)
  }

  function EdgeFactor(param: int): int { if param != 0 then param else 1 }

  /** Stand-in for the neighbour beyond the border; the conversion to 16 bits may wrap. */
  function VirtualNeighbour(peak: int, n1: int, n2: int, param: int): int {
    var comp1 := TruncDiv((peak - n1) * 10, EdgeFactor(param));
    var comp2 := peak - TruncDiv((n1 - n2) * EdgeFactor(param), 10);
    var v := ToShort(Max(comp1, comp2));
    if peak <= v then ToShort(peak - 1) else v
  }

  function TriangleEdge(peak: int, n1: int, n2: int, param1: int, param2: int): int {
    if peak + n1 + n2 < TruncDiv(param2 * 2, 5) then 0
    else Triangle(VirtualNeighbour(peak, n1, n2, param1), peak, n1)
  }

  /** Position along one dimension, in 1/1024 of a cell. */
  function SolveByTriangle(signal: seq<int>, k: int, edgeParam: seq<int>): int
    requires |signal| == DIM && |edgeParam| == 3
  {
    if k < 0 || k >= DIM then NO_COOR
    else if k == 0 then
      TriangleEdge(Clipped(signal[0]), Clipped(signal[1]), Clipped(signal[2]), edgeParam[0], edgeParam[2])
    else if k == DIM - 1 then
      DIM * UNIT - TriangleEdge(Clipped(signal[DIM - 1]), Clipped(signal[DIM - 2]), Clipped(signal[DIM - 3]),
        edgeParam[0], edgeParam[1])
    else
      k * UNIT + Triangle(Clipped(signal[k - 1]), Clipped(signal[k]), Clipped(signal[k + 1]))
  }

  // ----- bounds -----

  lemma RatioAtMostUnit(a: int, b: int)
    requires 0 <= a <= b && b > 0
    ensures 0 <= TruncDiv(TruncDiv(a * UNIT, b), 2) <= HALF
  {
    MulLe(a, b, UNIT);
    TruncDivBetween(a * UNIT, b, 0, UNIT);
  }

  /** No neighbour above the peak: the offset stays within the cell. */
  lemma TriangleInCell(left: int, peak: int, right: int)
    requires left <= peak && right <= peak
    ensures 0 <= Triangle(left, peak, right) <= UNIT
  {
    if right < left {
      RatioAtMostUnit(left - right, peak - right);
    } else if peak <= left {
      RatioAtMostUnit(1, 1);
    } else {
      RatioAtMostUnit(right - left, peak - left);
    }
  }

  /** At the border as well, whatever the wrapped stand-in is. */
  lemma EdgeInCell(peak: int, n1: int, n2: int, param1: int, param2: int)
    requires IsShort(peak) && peak > 0 && n1 <= peak
    ensures VirtualNeighbour(peak, n1, n2, param1) < peak
    ensures 0 <= TriangleEdge(peak, n1, n2, param1, param2) <= UNIT
  {
    TriangleInCell(VirtualNeighbour(peak, n1, n2, param1), peak, n1);
  }

  /** At the arg-max the position lies in the peak's own cell, both bounds included. */
  lemma SolvedInPeakCell(signal: seq<int>, k: int, edgeParam: seq<int>)
    requires |signal| == DIM && |edgeParam| == 3 && IsLinePeak(signal, k) && k != -1
    ensures k * UNIT <= SolveByTriangle(signal, k, edgeParam) <= (k + 1) * UNIT
  {
    var peak := Clipped(signal[k]);
    assert peak > 0 && forall i :: 0 <= i < DIM ==> Clipped(signal[i]) <= peak;
    if k == 0 {
      EdgeInCell(peak, Clipped(signal[1]), Clipped(signal[2]), edgeParam[0], edgeParam[2]);
    } else if k == DIM - 1 {
      EdgeInCell(peak, Clipped(signal[DIM - 2]), Clipped(signal[DIM - 3]), edgeParam[0], edgeParam[1]);
    } else {
      TriangleInCell(Clipped(signal[k - 1]), peak, Clipped(signal[k + 1]));
    }
  }

  // ----- mirror symmetry -----

  function Mirrored(signal: seq<int>): (m: seq<int>)
    requires |signal| == DIM
    ensures |m| == DIM && forall i :: 0 <= i < DIM ==> m[i] == signal[DIM - 1 - i]
  {
    seq(DIM, i requires 0 <= i < DIM => signal[DIM - 1 - i])
  }

  /** Exchanging the neighbours mirrors the offset, unless both are as high as the peak. */
  lemma TriangleMirrors(left: int, peak: int, right: int)
    requires left <= peak && right <= peak
    ensures Triangle(right, peak, left) == UNIT - Triangle(left, peak, right) <==> !(left == peak == right)
  {
    if left == right {
      if left < peak { RatioAtMostUnit(0, peak - left); } else { RatioAtMostUnit(1, 1); }
    }
  }

  /** Last greatest entry of a signal whose first greatest entry is `k`. */
  ghost predicate IsLastPeak(signal: seq<int>, k: int, l: int) {
    && 0 <= k <= l < |signal| && signal[l] == signal[k]
    && forall i :: l < i < |signal| ==> signal[i] < signal[k]
  }

  /** The signal read backwards gives the mirrored position. */
  ghost predicate Mirrors(signal: seq<int>, k: int, l: int, edgeParam: seq<int>)
    requires |signal| == DIM && |edgeParam| == 3
  {
    SolveByTriangle(Mirrored(signal), DIM - 1 - l, edgeParam) == DIM * UNIT - SolveByTriangle(signal, k, edgeParam)
  }

  /** A peak as high as its inner neighbour sits on the cell border between them. */
  lemma TieAtCellBorder(left: int, peak: int)
    requires left <= peak
    ensures Triangle(left, peak, peak) == UNIT
    ensures left < peak ==> Triangle(peak, peak, left) == 0
  {
    RatioOfUnit(peak - left);
  }

  lemma RatioOfUnit(b: int)
    requires b >= 0
    ensures b > 0 ==> TruncDiv(TruncDiv(b * UNIT, b), 2) == HALF
  {
    if b > 0 {
      assert b * UNIT == UNIT * b;
      TruncDivBetween(b * UNIT, b, UNIT, UNIT);
    }
  }

  /** The signal of a tied pair at the border is strong enough to be placed. */
  ghost predicate StrongPair(peak: int, next: int, param: int) { peak + peak + next >= TruncDiv(param * 2, 5) }

  /** When the first and the last peak are `k` and `l` reading backwards mirrors the position. */
  ghost predicate MirrorCondition(signal: seq<int>, k: int, l: int, param: int)
    requires |signal| == DIM && 0 <= k <= l < DIM
  {
    var c := (i: int) requires 0 <= i < DIM => Clipped(signal[i]);
    if k == l then !(0 < k < DIM - 1 && c(k - 1) == c(k) == c(k + 1))
    else
      && l == k + 1
      && (k == 0 ==> StrongPair(c(0), c(2), param))
      && (l == DIM - 1 ==> StrongPair(c(l), c(l - 2), param))
  }

  lemma LastIsFirstMirrored(signal: seq<int>, k: int, l: int)
    requires |signal| == DIM && IsLinePeak(signal, k) && k != -1 && IsLastPeak(signal, k, l)
    ensures IsLinePeak(Mirrored(signal), DIM - 1 - l)
  {
  }

  /** One peak: the neighbours change sides. */
  lemma SinglePeakMirrors(signal: seq<int>, k: int, edgeParam: seq<int>)
    requires |signal| == DIM && |edgeParam| == 3 && edgeParam[1] == edgeParam[2]
    requires IsLinePeak(signal, k) && k != -1
    ensures Mirrors(signal, k, k, edgeParam) <==> MirrorCondition(signal, k, k, edgeParam[1])
  {
    if 0 < k < DIM - 1 { TriangleMirrors(Clipped(signal[k - 1]), Clipped(signal[k]), Clipped(signal[k + 1])); }
  }

  /** A tied pair at the border: its position is the cell border between them, or the pair is too weak. */
  lemma PairAtBorder(peak: int, next: int, param1: int, param2: int)
    requires IsShort(peak) && peak > 0 && next <= peak
    ensures TriangleEdge(peak, peak, next, param1, param2) == if StrongPair(peak, next, param2) then UNIT else 0
  {
    EdgeInCell(peak, peak, next, param1, param2);
    TieAtCellBorder(VirtualNeighbour(peak, peak, next, param1), peak);
  }

  /** Two neighbouring peaks: both readings give the cell border between them. */
  lemma PairMirrors(signal: seq<int>, k: int, edgeParam: seq<int>)
    requires |signal| == DIM && |edgeParam| == 3 && edgeParam[1] == edgeParam[2]
    requires IsLinePeak(signal, k) && k != -1 && IsLastPeak(signal, k, k + 1)
    ensures Mirrors(signal, k, k + 1, edgeParam) <==> MirrorCondition(signal, k, k + 1, edgeParam[1])
  {
    var l, peak := k + 1, Clipped(signal[k]);
    if k == 0 {
      PairAtBorder(peak, Clipped(signal[2]), edgeParam[0], edgeParam[2]);
    } else {
      TieAtCellBorder(Clipped(signal[k - 1]), peak);
    }
    if l == DIM - 1 {
      PairAtBorder(peak, Clipped(signal[l - 2]), edgeParam[0], edgeParam[2]);
    } else {
      TieAtCellBorder(Clipped(signal[l + 1]), peak);
    }
  }

  /** For every signal with a peak, reversing it maps c to 9 * 1024 - c exactly when the greatest value stands
      once, or in two neighbouring places (strong enough, when one of them is at the border). */
  lemma MirrorsIff(signal: seq<int>, k: int, l: int, edgeParam: seq<int>)
    requires |signal| == DIM && |edgeParam| == 3 && edgeParam[1] == edgeParam[2]
    requires IsLinePeak(signal, k) && k != -1 && IsLastPeak(signal, k, l)
    ensures IsLinePeak(Mirrored(signal), DIM - 1 - l)
    ensures Mirrors(signal, k, l, edgeParam) <==> MirrorCondition(signal, k, l, edgeParam[1])
  {
    LastIsFirstMirrored(signal, k, l);
    if l == k {
      SinglePeakMirrors(signal, k, edgeParam);
    } else if l == k + 1 {
      PairMirrors(signal, k, edgeParam);
    } else {
      SolvedInPeakCell(signal, k, edgeParam);
      SolvedInPeakCell(Mirrored(signal), DIM - 1 - l, edgeParam);
    }
  }

  ghost predicate UniquePeak(signal: seq<int>, k: int) {
    0 <= k < |signal| && signal[k] > 0 && forall i :: 0 <= i < |signal| && i != k ==> signal[i] < signal[k]
  }

  /** With a unique peak and 16-bit signals the position always mirrors. */
  lemma SolveMirrors(signal: seq<int>, k: int, edgeParam: seq<int>)
    requires |signal| == DIM && |edgeParam| == 3 && edgeParam[1] == edgeParam[2]
    requires UniquePeak(signal, k) && forall i :: 0 <= i < DIM ==> IsShort(signal[i])
    ensures IsLinePeak(signal, k) && Mirrors(signal, k, k, edgeParam)
  {
    MirrorsIff(signal, k, k, edgeParam);
  }

  /** Two equal peaks apart always break the mirror: the scan takes the first of them either way. */
  lemma PeaksApartBreakMirror(signal: seq<int>, k: int, l: int, edgeParam: seq<int>)
    requires |signal| == DIM && |edgeParam| == 3 && edgeParam[1] == edgeParam[2]
    requires IsLinePeak(signal, k) && k != -1 && IsLastPeak(signal, k, l) && l >= k + 2
    ensures !Mirrors(signal, k, l, edgeParam)
  {
    MirrorsIff(signal, k, l, edgeParam);
  }

  // ----- gravity -----

  /** Positive signal and its moment over the first `n` entries. */
  function Weight(signal: seq<int>, n: nat): (w: int)
    requires n <= |signal|
    ensures w >= 0
    decreases n, |signal|
  {
    if n == 0 then 0 else Weight(signal, n - 1) + Max(0, signal[n - 1])
  }

  function Moment(signal: seq<int>, n: nat): int
    requires n <= |signal|
    decreases n, |signal|
  {
    if n == 0 then 0 else Moment(signal, n - 1) + Max(0, signal[n - 1]) * (n - 1) * UNIT
  }

  method SolveByGravity(signal: seq<int>) returns (coor: int)
    requires |signal| == DIM
    ensures Weight(signal, DIM) == 0 ==> coor == NO_COOR
    ensures Weight(signal, DIM) > 0 ==> coor == TruncDiv(Moment(signal, DIM), Weight(signal, DIM))
  {
    var weighted, total := 0, 0;
    for i := 0 to DIM
      invariant weighted == Moment(signal, i) && total == Weight(signal, i)
    {
      if signal[i] > 0 {
        weighted := weighted + signal[i] * i * UNIT;
        total := total + signal[i];
      }
    }
    if total <= 0 { return NO_COOR; }
    return TruncDiv(weighted, total);
  }

  lemma TermBetween(w: int, m: int, s: int, i: int, lo: int, hi: int)
    requires s >= 0 && lo <= i <= hi && lo * UNIT * w <= m <= hi * UNIT * w
    ensures lo * UNIT * (w + s) <= m + s * i * UNIT <= hi * UNIT * (w + s)
  {
    MulLe(lo * UNIT, i * UNIT, s);
    MulLe(i * UNIT, hi * UNIT, s);
    assert s * i * UNIT == i * UNIT * s;
    assert lo * UNIT * (w + s) == lo * UNIT * w + lo * UNIT * s;
    assert hi * UNIT * (w + s) == hi * UNIT * w + hi * UNIT * s;
  }

  lemma {:induction false} MomentBetween(signal: seq<int>, n: nat, lo: int, hi: int)
    requires n <= |signal| && forall i :: 0 <= i < n && signal[i] > 0 ==> lo <= i <= hi
    ensures lo * UNIT * Weight(signal, n) <= Moment(signal, n) <= hi * UNIT * Weight(signal, n)
  {
    if n > 0 {
      MomentBetween(signal, n - 1, lo, hi);
      if signal[n - 1] > 0 {
        TermBetween(Weight(signal, n - 1), Moment(signal, n - 1), signal[n - 1], n - 1, lo, hi);
      }
    }
  }

  /** The weighted position lies between the first and the last positive entry, and so fits 32 bits. */
  lemma GravityInHull(signal: seq<int>, lo: int, hi: int)
    requires |signal| == DIM && Weight(signal, DIM) > 0 && 0 <= lo <= hi < DIM
    requires forall i :: 0 <= i < DIM && signal[i] > 0 ==> lo <= i <= hi
    ensures lo * UNIT <= TruncDiv(Moment(signal, DIM), Weight(signal, DIM)) <= hi * UNIT < NO_COOR
  {
    MomentBetween(signal, DIM, lo, hi);
    TruncDivBetween(Moment(signal, DIM), Weight(signal, DIM), lo * UNIT, hi * UNIT);
  }

  // ----- both dimensions -----

  datatype CoorResult = CoorResult(dim1: int, dim2: int, valid: bool)

  const NO_RESULT := CoorResult(0, 0, false)

  class CoordinateSolver {
    const useTriangle: bool
    const triParamDim1: seq<int>
    const triParamDim2: seq<int>

    constructor (useTriangle: bool, triParamDim1: seq<int>, triParamDim2: seq<int>)
      ensures this.useTriangle == useTriangle && this.triParamDim1 == triParamDim1 && this.triParamDim2 == triParamDim2
    {
      this.useTriangle, this.triParamDim1, this.triParamDim2 := useTriangle, triParamDim1, triParamDim2;
    }

    /** Position along one dimension by the configured method. */
    ghost function SolvedDim(signal: seq<int>, k: int, param: seq<int>): int
      requires |signal| == DIM && |param| == 3 && Weight(signal, DIM) > 0
    {
      if useTriangle then SolveByTriangle(signal, k, param) else TruncDiv(Moment(signal, DIM), Weight(signal, DIM))
    }

    /** Valid exactly when both dimensions have a peak. Each position is then on the grid, the clamp lowering
        at most the very last unit; the triangle's also lies in its peak's cell. */
    ghost predicate Solves(proj: Projection, result: CoorResult)
      requires |proj.dim1| == |proj.dim2| == DIM && |triParamDim1| == |triParamDim2| == 3
    {
      if proj.peakIdxDim1 == -1 || proj.peakIdxDim2 == -1 then result == NO_RESULT
      else
        && result.valid && Weight(proj.dim1, DIM) > 0 && Weight(proj.dim2, DIM) > 0
        && Clamped(proj.peakIdxDim1, SolvedDim(proj.dim1, proj.peakIdxDim1, triParamDim1), result.dim1)
        && Clamped(proj.peakIdxDim2, SolvedDim(proj.dim2, proj.peakIdxDim2, triParamDim2), result.dim2)
    }

    ghost predicate Clamped(k: int, c: int, dim: int) {
      && 0 <= dim < DIM * UNIT && dim == (if c == DIM * UNIT then c - 1 else c)
      && (useTriangle ==> k * UNIT <= dim <= (k + 1) * UNIT)
    }

    method Solve(proj: Projection) returns (result: CoorResult)
      requires |proj.dim1| == |proj.dim2| == DIM && |triParamDim1| == |triParamDim2| == 3
      requires IsLinePeak(proj.dim1, proj.peakIdxDim1) && IsLinePeak(proj.dim2, proj.peakIdxDim2)
      ensures Solves(proj, result)
    {
      GravityOfPeak(proj.dim1, proj.peakIdxDim1);
      GravityOfPeak(proj.dim2, proj.peakIdxDim2);
      var c1, c2;
      if useTriangle {
        c1 := SolveByTriangle(proj.dim1, proj.peakIdxDim1, triParamDim1);
        c2 := SolveByTriangle(proj.dim2, proj.peakIdxDim2, triParamDim2);
        if proj.peakIdxDim1 != -1 { SolvedInPeakCell(proj.dim1, proj.peakIdxDim1, triParamDim1); }
        if proj.peakIdxDim2 != -1 { SolvedInPeakCell(proj.dim2, proj.peakIdxDim2, triParamDim2); }
      } else {
        c1 := SolveByGravity(proj.dim1);
        c2 := SolveByGravity(proj.dim2);
      }
      if c1 == NO_COOR || c2 == NO_COOR { return NO_RESULT; }
      return CoorResult(Max(0, Min(c1, DIM * UNIT - 1)), Max(0, Min(c2, DIM * UNIT - 1)), true);
    }
  }

  /** There is weight exactly when there is a peak. */
  lemma GravityOfPeak(signal: seq<int>, k: int)
    requires |signal| == DIM && IsLinePeak(signal, k)
    ensures Weight(signal, DIM) > 0 <==> k != -1
    ensures k != -1 ==> 0 <= TruncDiv(Moment(signal, DIM), Weight(signal, DIM)) <= (DIM - 1) * UNIT
  {
    if k == -1 {
      NoWeight(signal, DIM);
    } else {
      SomeWeight(signal, DIM, k);
      GravityInHull(signal, 0, DIM - 1);
    }
  }

  lemma {:induction false} NoWeight(signal: seq<int>, n: nat)
    requires n <= |signal| && forall i :: 0 <= i < |signal| ==> signal[i] <= 0
    ensures Weight(signal, n) == 0
  {
    if n > 0 { NoWeight(signal, n - 1); }
  }

  lemma {:induction false} SomeWeight(signal: seq<int>, n: nat, k: nat)
    requires k < n <= |signal| && signal[k] > 0
    ensures Weight(signal, n) > 0
  {
    if k < n - 1 { SomeWeight(signal, n - 1, k); }
  }
}
