/** The stylus numbers said without their helpers: sums over sets of cells, the interpolated offset, and what the filter
    does to a sample. */
module PenMeaning {
  import opened EngineTypes
  import opened StylusGrid
  import opened StylusPeak
  import opened Coordinate
  import opened PostFilter
  import CellSums

  // ----- sums on the pen grid -----

  /** The cells at most one row and one column from `i`, up to place `d` in row-major order. */
  ghost function Part(i: int, d: int): set<int> {
    set j | 0 <= j < SIZE && -1 <= RowOf(j) - RowOf(i) <= 1 && -1 <= ColOf(j) - ColOf(i) <= 1
      && (RowOf(j) - RowOf(i) + 1) * 3 + ColOf(j) - ColOf(i) + 1 < d
  }

  lemma PlaceDigits(a: int, b: int, d: int)
    requires 0 <= a < 3 && 0 <= b < 3 && a * 3 + b == d
    ensures d / 3 == a && d % 3 == b
  {
  }

  lemma CellAt(j: int)
    requires 0 <= j < SIZE
    ensures 0 <= RowOf(j) < DIM && 0 <= ColOf(j) < DIM && At(RowOf(j), ColOf(j)) == j
  {
  }

  lemma PartGrows(i: int, d: nat)
    requires StylusGrid.Inside(i) && d < 9
    ensures var (r, c) := (RowOf(i) + d / 3 - 1, ColOf(i) + d % 3 - 1);
      if 0 <= r < DIM && 0 <= c < DIM then
        Part(i, d + 1) == Part(i, d) + {At(r, c)} && At(r, c) !in Part(i, d)
      else Part(i, d + 1) == Part(i, d)
  {
    var (r, c) := (RowOf(i) + d / 3 - 1, ColOf(i) + d % 3 - 1);
    forall j | j in Part(i, d + 1) && j !in Part(i, d) ensures RowOf(j) == r && ColOf(j) == c {
      PlaceDigits(RowOf(j) - RowOf(i) + 1, ColOf(j) - ColOf(i) + 1, d);
    }
    forall j | 0 <= j < SIZE ensures 0 <= RowOf(j) < DIM && 0 <= ColOf(j) < DIM && At(RowOf(j), ColOf(j)) == j {
      CellAt(j);
    }
  }

  lemma {:induction false} SumToIsSetSum(grid: seq<int>, i: int, d: nat)
    requires |grid| == SIZE && StylusGrid.Inside(i) && d <= 9
    ensures SumTo(grid, i, d) == CellSums.SetSum(grid, Part(i, d), SIZE)
  {
    if d == 0 {
      assert Part(i, 0) == {};
      CellSums.SetSumNothing(grid, SIZE);
    } else {
      SumToIsSetSum(grid, i, d - 1);
      PartGrows(i, d - 1);
      var (r, c) := (RowOf(i) + (d - 1) / 3 - 1, ColOf(i) + (d - 1) % 3 - 1);
      if 0 <= r < DIM && 0 <= c < DIM { CellSums.SetSumAdd(grid, Part(i, d - 1), At(r, c), SIZE); }
    }
  }

  ghost function Square(i: int): set<int> {
    set j | 0 <= j < SIZE && -1 <= RowOf(j) - RowOf(i) <= 1 && -1 <= ColOf(j) - ColOf(i) <= 1
  }

  /** The peak's sum is that of the cells within one row and column of it. */
  lemma SquareSum(grid: seq<int>, i: int)
    requires |grid| == SIZE && StylusGrid.Inside(i)
    ensures Sum3x3(grid, i) == CellSums.SetSum(grid, Square(i), SIZE)
  {
    SumToIsSetSum(grid, i, 9);
    assert Part(i, 9) == Square(i);
  }

  ghost function InColumn(c: int, lo: int, hi: int): set<int> {
    set j | 0 <= j < SIZE && ColOf(j) == c && lo <= RowOf(j) < hi
  }

  ghost function InRow(r: int, lo: int, hi: int): set<int> {
    set j | 0 <= j < SIZE && RowOf(j) == r && lo <= ColOf(j) < hi
  }

  lemma {:induction false} ColumnSumIsSetSum(grid: seq<int>, c: int, lo: int, hi: int)
    requires |grid| == SIZE && 0 <= c < DIM && 0 <= lo <= hi <= DIM
    ensures ColumnSum(grid, c, lo, hi) == CellSums.SetSum(grid, InColumn(c, lo, hi), SIZE)
    decreases hi - lo
  {
    if lo == hi {
      assert InColumn(c, lo, hi) == {};
      CellSums.SetSumNothing(grid, SIZE);
    } else {
      ColumnSumIsSetSum(grid, c, lo, hi - 1);
      forall j | j in InColumn(c, lo, hi) ensures At(RowOf(j), ColOf(j)) == j { CellAt(j); }
      assert InColumn(c, lo, hi) == InColumn(c, lo, hi - 1) + {At(hi - 1, c)};
      CellSums.SetSumAdd(grid, InColumn(c, lo, hi - 1), At(hi - 1, c), SIZE);
    }
  }

  lemma {:induction false} RowSumIsSetSum(grid: seq<int>, r: int, lo: int, hi: int)
    requires |grid| == SIZE && 0 <= r < DIM && 0 <= lo <= hi <= DIM
    ensures RowSum(grid, r, lo, hi) == CellSums.SetSum(grid, InRow(r, lo, hi), SIZE)
    decreases hi - lo
  {
    if lo == hi {
      assert InRow(r, lo, hi) == {};
      CellSums.SetSumNothing(grid, SIZE);
    } else {
      RowSumIsSetSum(grid, r, lo, hi - 1);
      forall j | j in InRow(r, lo, hi) ensures At(RowOf(j), ColOf(j)) == j { CellAt(j); }
      assert InRow(r, lo, hi) == InRow(r, lo, hi - 1) + {At(r, hi - 1)};
      CellSums.SetSumAdd(grid, InRow(r, lo, hi - 1), At(r, hi - 1), SIZE);
    }
  }

  ghost function ColumnNear(c: int, row: int, radius: int): set<int> {
    set j | 0 <= j < SIZE && ColOf(j) == c && -radius <= RowOf(j) - row <= radius
  }

  ghost function RowNear(r: int, col: int, radius: int): set<int> {
    set j | 0 <= j < SIZE && RowOf(j) == r && -radius <= ColOf(j) - col <= radius
  }

  /** Entry `k` of a projection is the signal of column `k` in the rows within the radius of the peak, and of row `k` in
      the columns within it. */
  lemma ProjectionMeans(grid: seq<int>, peak: PeakUnit, radius: nat, proj: Projection, k: int)
    requires |grid| == SIZE && peak.valid && 0 <= peak.peakRow < DIM && 0 <= peak.peakCol < DIM && 0 <= k < DIM
    requires IsProjection(grid, peak, radius, proj)
    ensures proj.dim1[k] == CellSums.SetSum(grid, ColumnNear(k, peak.peakRow, radius), SIZE)
    ensures proj.dim2[k] == CellSums.SetSum(grid, RowNear(k, peak.peakCol, radius), SIZE)
  {
    var rMin, rMax := Max(0, peak.peakRow - radius), Min(DIM - 1, peak.peakRow + radius) + 1;
    var cMin, cMax := Max(0, peak.peakCol - radius), Min(DIM - 1, peak.peakCol + radius) + 1;
    ColumnSumIsSetSum(grid, k, rMin, rMax);
    RowSumIsSetSum(grid, k, cMin, cMax);
    assert InColumn(k, rMin, rMax) == ColumnNear(k, peak.peakRow, radius);
    assert InRow(k, cMin, cMax) == RowNear(k, peak.peakCol, radius);
  }

  // ----- interpolation -----

  /** `d` is half of `1024 * a / b`, cut off. */
  ghost predicate HalfRatio(d: int, a: int, b: int) { 2 * d * b <= 1024 * a < 2 * d * b + 2 * b }

  lemma HalfRatioMeans(a: int, b: int)
    requires a >= 0 && b > 0
    ensures HalfRatio(TruncDiv(TruncDiv(a * UNIT, b), 2), a, b)
  {
    var q := TruncDiv(a * UNIT, b);
    TruncDivMeans(a * UNIT, b);
    var d := q / 2;
    if q % 2 == 0 {
      assert q == 2 * d;
      assert q * b == 2 * d * b;
    } else {
      assert q == 2 * d + 1;
      assert q * b == 2 * d * b + b;
    }
  }

  /** The offset moves from the middle of the cell toward the greater neighbour, by half the ratio of what the
      neighbours and the peak exceed the lesser neighbour by. */
  lemma TriangleMeans(left: int, peak: int, right: int) returns (d: int)
    requires left < peak && right < peak
    ensures d >= 0 && HalfRatio(d, if left < right then right - left else left - right,
                                if left < right then peak - left else peak - right)
    ensures left <= right ==> Triangle(left, peak, right) == 512 + d
    ensures right <= left ==> Triangle(left, peak, right) == 512 - d
  {
    var low, high := Min(left, right), Max(left, right);
    d := TruncDiv(TruncDiv((high - low) * UNIT, peak - low), 2);
    HalfRatioMeans(high - low, peak - low);
    RatioAtMostUnit(high - low, peak - low);
    if left == right { assert (high - low) * UNIT == 0; }
  }

  /** For a falling border signal the stand-in for the missing neighbour is the greater of two estimates, kept below
      the peak: the drop to the inner neighbour over the parameter, and the peak less the next drop times the
      parameter, both in tenths. */
  lemma StandInMeans(peak: int, n1: int, n2: int, param: int) returns (a: int, b: int)
    requires n2 <= n1 <= peak && param > 0
    ensures a * param <= 10 * (peak - n1) < a * param + param
    ensures 10 * (peak - b) <= (n1 - n2) * param < 10 * (peak - b) + 10
    ensures IsShort(a) && IsShort(b) && IsShort(peak) && peak > SHORT_MIN ==>
      VirtualNeighbour(peak, n1, n2, param) == if a < peak && b < peak then Max(a, b) else peak - 1
  {
    a := TruncDiv((peak - n1) * 10, param);
    TruncDivMeans((peak - n1) * 10, param);
    MulLe(0, n1 - n2, param);
    b := peak - TruncDiv((n1 - n2) * param, 10);
    TruncDivMeans((n1 - n2) * param, 10);
  }

  /** At the first place of the line the position is that of the peak between its stand-in and its neighbour, or the
      border itself when peak and two neighbours are below two fifths of the third parameter; at the last place
      likewise, seen from the other side and with the second parameter. */
  lemma BorderPosition(signal: seq<int>, edgeParam: seq<int>)
    requires |signal| == DIM && |edgeParam| == 3 && forall i :: 0 <= i < DIM ==> IsShort(signal[i])
    ensures edgeParam[2] >= 0 ==>
      SolveByTriangle(signal, 0, edgeParam) ==
        if 5 * (signal[0] + signal[1] + signal[2]) + 5 <= 2 * edgeParam[2] then 0
        else Triangle(VirtualNeighbour(signal[0], signal[1], signal[2], edgeParam[0]), signal[0], signal[1])
    ensures edgeParam[1] >= 0 ==>
      SolveByTriangle(signal, 8, edgeParam) == 9216 -
        if 5 * (signal[8] + signal[7] + signal[6]) + 5 <= 2 * edgeParam[1] then 0
        else Triangle(VirtualNeighbour(signal[8], signal[7], signal[6], edgeParam[0]), signal[8], signal[7])
  {
    if edgeParam[2] >= 0 { TruncDivMeans(edgeParam[2] * 2, 5); }
    if edgeParam[1] >= 0 { TruncDivMeans(edgeParam[1] * 2, 5); }
  }

  /** Along one dimension the gravity position is the mean index of the positive signal in 1/1024, cut off. */
  ghost function Positive(signal: seq<int>): set<int> { set i | 0 <= i < |signal| && signal[i] > 0 }

  ghost function Levers(signal: seq<int>): (v: seq<int>)
    ensures |v| == |signal| && forall i :: 0 <= i < |v| ==> v[i] == i * signal[i]
  {
    seq(|signal|, i requires 0 <= i < |signal| => i * signal[i])
  }

  lemma {:induction false} GravitySums(signal: seq<int>, n: nat)
    requires n <= |signal|
    ensures Weight(signal, n) == CellSums.SetSum(signal, Positive(signal), n)
    ensures Moment(signal, n) == 1024 * CellSums.SetSum(Levers(signal), Positive(signal), n)
  {
    if n > 0 {
      GravitySums(signal, n - 1);
      LeverTerm(signal[n - 1], n - 1);
    }
  }

  lemma LeverTerm(s: int, i: int)
    ensures s * i * UNIT == 1024 * (i * s)
  {
  }

  lemma GravityMeans(signal: seq<int>)
    requires |signal| == DIM && Weight(signal, DIM) > 0
    ensures var c := TruncDiv(Moment(signal, DIM), Weight(signal, DIM));
      var w := CellSums.SetSum(signal, Positive(signal), DIM);
      c * w <= 1024 * CellSums.SetSum(Levers(signal), Positive(signal), DIM) < c * w + w
  {
    GravitySums(signal, DIM);
    MomentBetween(signal, DIM, 0, DIM - 1);
    TruncDivMeans(Moment(signal, DIM), Weight(signal, DIM));
  }

  // ----- the filter -----

  /** The coefficient is the low one up to the low speed, the high one from the high speed on, and on the line between
      them in between. */
  lemma CoefMeans(cfg: PostFilter.Config, speed: real)
    ensures var c := CalcIIRCoef(cfg, speed);
      && (speed <= cfg.speedLowThr ==> c == cfg.iirLowCoef)
      && (speed >= cfg.speedHighThr && speed > cfg.speedLowThr ==> c == cfg.iirHighCoef)
      && (cfg.speedLowThr < speed < cfg.speedHighThr ==>
            (c - cfg.iirLowCoef) * (cfg.speedHighThr - cfg.speedLowThr)
              == (speed - cfg.speedLowThr) * (cfg.iirHighCoef - cfg.iirLowCoef))
  {
    if cfg.speedLowThr < speed < cfg.speedHighThr {
      QuotientCancels(speed - cfg.speedLowThr, cfg.speedHighThr - cfg.speedLowThr, cfg.iirHighCoef - cfg.iirLowCoef);
    }
  }

  lemma QuotientCancels(a: real, b: real, k: real)
    requires b != 0.0
    ensures a / b * k * b == a * k
  {
    assert a / b * b == a;
  }

  /** Both dimensions are within the jitter threshold of each other. */
  ghost predicate Near(cfg: PostFilter.Config, a: CoorResult, b: CoorResult) {
    var t := cfg.jitterLockThreshold;
    -t <= a.dim1 - b.dim1 <= t && -t <= a.dim2 - b.dim2 <= t
  }

  /** A sample in three: the last two outputs and the raw one are averaged, once there are two and it is configured. */
  ghost predicate ThirdOf(x: int, sum: int) {
    if sum >= 0 then 3 * x <= sum < 3 * x + 3 else 3 * x - 3 < sum <= 3 * x
  }

  ghost predicate IsAverage(cfg: PostFilter.Config, f: Filter, raw: CoorResult, cur: CoorResult) {
    if cfg.enable3PointAvg && f.frameCount >= 2 && f.prev0.valid && f.prev1.valid then
      && ThirdOf(cur.dim1, f.prev0.dim1 + f.prev1.dim1 + raw.dim1)
      && ThirdOf(cur.dim2, f.prev0.dim2 + f.prev1.dim2 + raw.dim2) && cur.valid == raw.valid
    else cur == raw
  }

  /** `out` is the whole number nearest to `x`. */
  ghost predicate Nearest(out: int, x: real) { -0.5 <= out as real - x <= 0.5 }

  /** `y` is `x` moved toward `to` by the share `coef`. */
  ghost predicate MovedBy(x: real, to: real, coef: real, y: real) { y == x + coef * (to - x) }

  /** Smoothed state `g` and position `smooth`: the average sets them at first, and then moves the smoothed position
      toward itself by the coefficient of its speed, rounded. */
  ghost predicate SmoothMeans(cfg: PostFilter.Config, f: Filter, cur: CoorResult, g: Filter, smooth: CoorResult) {
    && g.coef == CalcIIRCoef(cfg, g.speed) && g.initialized
    && (!f.initialized ==> smooth == cur && g.iir1 == cur.dim1 as real && g.iir2 == cur.dim2 as real)
    && (f.initialized ==>
          && MovedBy(f.iir1, cur.dim1 as real, g.coef, g.iir1) && Nearest(smooth.dim1, g.iir1)
          && MovedBy(f.iir2, cur.dim2 as real, g.coef, g.iir2) && Nearest(smooth.dim2, g.iir2)
          && smooth.valid == cur.valid)
  }

  /** What the filter does to a valid sample: average, smooth, and keep the locked position until the smooth one
      leaves its neighbourhood. */
  ghost predicate StepMeans(cfg: PostFilter.Config, f: Filter, raw: CoorResult, g: Filter, out: CoorResult,
                            cur: CoorResult, smooth: CoorResult)
  {
    && IsAverage(cfg, f, raw, cur) && SmoothMeans(cfg, f, cur, g, smooth)
    && out == (if f.jitterLocked && Near(cfg, smooth, f.locked) then f.locked else smooth)
    && g.jitterLocked && g.locked == g.prev0 == out && g.prev1 == f.prev0 && g.frameCount == f.frameCount + 1
  }

  lemma AverageMeans(cfg: PostFilter.Config, f: Filter, raw: CoorResult)
    ensures IsAverage(cfg, f, raw, Averaged(cfg, f, raw))
  {
    TruncDivMeans(f.prev1.dim1 + f.prev0.dim1 + raw.dim1, 3);
    TruncDivMeans(f.prev1.dim2 + f.prev0.dim2 + raw.dim2, 3);
  }

  lemma BlendMoves(a: real, b: real, coef: real)
    ensures MovedBy(a, b, coef, Blend(a, b, coef))
  {
  }

  lemma SmoothedMeans(cfg: PostFilter.Config, f: Filter, cur: CoorResult)
    requires f.coef == CalcIIRCoef(cfg, f.speed)
    ensures var (g, smooth) := Smoothed(f, cur);
      SmoothMeans(cfg, f, cur, g, smooth) && g == f.(initialized := true, iir1 := g.iir1, iir2 := g.iir2)
  {
    if f.initialized {
      BlendMoves(f.iir1, cur.dim1 as real, f.coef);
      BlendMoves(f.iir2, cur.dim2 as real, f.coef);
    }
  }

  lemma SmoothByFields(cfg: PostFilter.Config, f: Filter, f': Filter, cur: CoorResult, g: Filter, smooth: CoorResult)
    requires SmoothMeans(cfg, f', cur, g, smooth)
    requires f'.initialized == f.initialized && f'.iir1 == f.iir1 && f'.iir2 == f.iir2
    ensures SmoothMeans(cfg, f, cur, g, smooth)
  {
  }

  /** The part of a step before the lock. */
  lemma SmoothingMeans(cfg: PostFilter.Config, f: Filter, raw: CoorResult) returns (cur: CoorResult)
    requires Sized(f)
    ensures var (g, smooth) := Smoothing(cfg, f, raw);
      && IsAverage(cfg, f, raw, cur) && SmoothMeans(cfg, f, cur, g, smooth)
      && g.prev0 == f.prev0 && g.frameCount == f.frameCount && g.jitterLocked == f.jitterLocked && g.locked == f.locked
  {
    var f1 := Pushed(f, raw);
    cur := Averaged(cfg, f1, raw);
    AverageMeans(cfg, f, raw);
    var speed := PostFilter.Distance(cfg, cur, f1.history[f1.historyIdx]);
    var f2 := f1.(speed := speed, coef := CalcIIRCoef(cfg, speed));
    SmoothedMeans(cfg, f2, cur);
    SmoothByFields(cfg, f, f2, cur, Smoothed(f2, cur).0, Smoothed(f2, cur).1);
  }

  lemma LockedMeans(cfg: PostFilter.Config, f: Filter, smooth: CoorResult)
    ensures Locked(cfg, f, smooth) == if f.jitterLocked && Near(cfg, smooth, f.locked) then f.locked else smooth
  {
  }

  lemma SmoothAfterLock(cfg: PostFilter.Config, f: Filter, cur: CoorResult, g: Filter, g': Filter, smooth: CoorResult)
    requires SmoothMeans(cfg, f, cur, g, smooth)
    requires g'.coef == g.coef && g'.speed == g.speed && g'.initialized == g.initialized
    requires g'.iir1 == g.iir1 && g'.iir2 == g.iir2
    ensures SmoothMeans(cfg, f, cur, g', smooth)
  {
  }

  /** One valid sample through the chain. */
  lemma StepExactly(cfg: PostFilter.Config, f: Filter, raw: CoorResult) returns (cur: CoorResult, smooth: CoorResult)
    requires Sized(f) && raw.valid
    ensures StepMeans(cfg, f, raw, Step(cfg, f, raw).0, Step(cfg, f, raw).1, cur, smooth)
  {
    cur := SmoothingMeans(cfg, f, raw);
    var g := Smoothing(cfg, f, raw).0;
    smooth := Smoothing(cfg, f, raw).1;
    LockedMeans(cfg, g, smooth);
    SmoothAfterLock(cfg, f, cur, g, Step(cfg, f, raw).0, smooth);
  }

  // ----- what the speed is measured against -----

  /** The ring holds the last 24 of the `n` samples from sample `j` on, each in its place. */
  ghost predicate RingHolds(f: Filter, raws: seq<CoorResult>, j: nat, n: nat)
    requires j + n <= |raws|
  {
    && |f.history| == 24 && f.historyIdx == n % 24
    && (forall q :: 0 <= q < n && n <= q + 24 ==> f.history[q % 24] == raws[j + q])
    && forall p :: n <= p < 24 ==> f.history[p] == NO_RESULT
  }

  lemma RingTurns(f: Filter, raws: seq<CoorResult>, j: nat, n: nat, g: Filter)
    requires j + n < |raws| && RingHolds(f, raws, j, n)
    requires g.history == f.history[f.historyIdx := raws[j + n]] && g.historyIdx == (f.historyIdx + 1) % 24
    ensures RingHolds(g, raws, j, n + 1)
  {
    forall q | 0 <= q < n + 1 && n + 1 <= q + 24 ensures g.history[q % 24] == raws[j + q] {
      if q < n { assert q % 24 != n % 24; }
    }
  }

  lemma FilterRing(cfg: PostFilter.Config, f: Filter, raw: CoorResult)
    requires Sized(f) && raw.valid
    ensures Step(cfg, f, raw).0.history == f.history[f.historyIdx := raw]
    ensures Step(cfg, f, raw).0.historyIdx == (f.historyIdx + 1) % 24
  {
  }

  lemma RingOverRun(cfg: PostFilter.Config, raws: seq<CoorResult>, states: seq<Filter>, outs: seq<CoorResult>, j: nat,
                    n: nat)
    requires IsRun(cfg, raws, states, outs) && j + n <= |raws| && ResetBefore(raws, j)
    requires forall i :: j <= i < j + n ==> raws[i].valid
    ensures RingHolds(states[j + n], raws, j, n)
  {
    if j > 0 { assert StepAt(cfg, raws, states, outs, j - 1); }
    assert states[j] == Fresh();
    for i := 0 to n
      invariant RingHolds(states[j + i], raws, j, i)
    {
      assert StepAt(cfg, raws, states, outs, j + i);
      FilterRing(cfg, states[j + i], raws[j + i]);
      RingTurns(states[j + i], raws, j, i, states[j + i + 1]);
    }
  }

  lemma SpeedOf(cfg: PostFilter.Config, f: Filter, raw: CoorResult) returns (cur: CoorResult)
    requires Sized(f) && raw.valid
    ensures IsAverage(cfg, f, raw, cur)
    ensures var ref := f.history[f.historyIdx := raw][(f.historyIdx + 1) % 24];
      Step(cfg, f, raw).0.speed == PostFilter.Distance(cfg, cur, ref)
  {
    cur := Averaged(cfg, Pushed(f, raw), raw);
    AverageMeans(cfg, f, raw);
  }

  lemma NextPlace(n: nat)
    requires n >= 23
    ensures (n - 23) % 24 == (n % 24 + 1) % 24 != n % 24
  {
  }

  lemma OldestHeld(f: Filter, raws: seq<CoorResult>, j: nat, n: nat)
    requires j + n < |raws| && RingHolds(f, raws, j, n)
    ensures f.history[f.historyIdx := raws[j + n]][(f.historyIdx + 1) % 24]
         == if n >= 23 then raws[j + n - 23] else NO_RESULT
  {
    if n >= 23 {
      NextPlace(n);
      assert f.history[(n - 23) % 24] == raws[j + (n - 23)];
    }
  }

  ghost function SquaredGap(a: CoorResult, b: CoorResult): real {
    var dx, dy := (a.dim1 - b.dim1) as real, (a.dim2 - b.dim2) as real;
    dx * dx + dy * dy
  }

  lemma DistanceMeans(cfg: PostFilter.Config, cur: CoorResult, ref: CoorResult)
    requires ref.valid
    ensures PostFilter.Distance(cfg, cur, ref) == (cfg.root)(SquaredGap(cur, ref))
  {
  }

  /** The speed of a sample is the distance of its average from the raw sample 23 samples before, and zero as long as
      there is none since the last reset. */
  lemma SpeedReference(cfg: PostFilter.Config, raws: seq<CoorResult>, states: seq<Filter>, outs: seq<CoorResult>,
                       j: nat, k: nat)
    returns (cur: CoorResult)
    requires IsRun(cfg, raws, states, outs) && j <= k < |raws| && ResetBefore(raws, j)
    requires forall i :: j <= i <= k ==> raws[i].valid
    ensures IsAverage(cfg, states[k], raws[k], cur)
    ensures k - j < 23 ==> states[k + 1].speed == 0.0
    ensures k - j >= 23 ==>
      states[k + 1].speed == (cfg.root)(SquaredGap(cur, raws[k - 23]))
  {
    RingOverRun(cfg, raws, states, outs, j, k - j);
    assert StepAt(cfg, raws, states, outs, k);
    cur := SpeedOf(cfg, states[k], raws[k]);
    OldestHeld(states[k], raws, j, k - j);
    if k - j >= 23 { DistanceMeans(cfg, cur, raws[k - 23]); }
  }

  // ----- what the lock holds -----

  lemma HeldByLock(cfg: PostFilter.Config, f: Filter, raw: CoorResult)
    requires Sized(f) && raw.valid && f.jitterLocked && Near(cfg, Smoothing(cfg, f, raw).1, f.locked)
    ensures Step(cfg, f, raw).1 == f.locked == Step(cfg, f, raw).0.locked && Step(cfg, f, raw).0.jitterLocked
  {
    var cur := SmoothingMeans(cfg, f, raw);
    LockedMeans(cfg, Smoothing(cfg, f, raw).0, Smoothing(cfg, f, raw).1);
  }

  lemma HeldAt(cfg: PostFilter.Config, raws: seq<CoorResult>, states: seq<Filter>, outs: seq<CoorResult>, i: nat)
    requires IsRun(cfg, raws, states, outs) && i < |raws| && raws[i].valid && Sized(states[i])
    requires states[i].jitterLocked && Near(cfg, Smoothing(cfg, states[i], raws[i]).1, states[i].locked)
    ensures outs[i] == states[i].locked == states[i + 1].locked && states[i + 1].jitterLocked
  {
    assert StepAt(cfg, raws, states, outs, i);
    HeldByLock(cfg, states[i], raws[i]);
  }

  /** As long as every smoothed position is within the jitter threshold of an output, that output stays. */
  lemma OutputHolds(cfg: PostFilter.Config, raws: seq<CoorResult>, states: seq<Filter>, outs: seq<CoorResult>, j: nat,
                    k: nat)
    requires IsRun(cfg, raws, states, outs) && j <= k < |raws| && forall i :: j <= i <= k ==> raws[i].valid
    requires forall i :: j < i <= k ==> Sized(states[i]) && Near(cfg, Smoothing(cfg, states[i], raws[i]).1, outs[j])
    ensures outs[k] == outs[j] == states[k + 1].locked && states[k + 1].jitterLocked
  {
    assert StepAt(cfg, raws, states, outs, j);
    for i := j + 1 to k + 1
      invariant states[i].locked == outs[j] == outs[i - 1] && states[i].jitterLocked
    {
      HeldAt(cfg, raws, states, outs, i);
    }
  }
}
