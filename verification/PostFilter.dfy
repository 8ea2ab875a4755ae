/** The stylus coordinate chain: average, speed-adaptive smoothing, jitter lock. */
module PostFilter {
  import opened EngineTypes
  import opened Coordinate

  const HISTORY: int := 24

  /** `root` stands for the square root. */
  datatype Config = Config(
    iirLowCoef: real, iirHighCoef: real, speedLowThr: real, speedHighThr: real,
    jitterLockThreshold: int, enable3PointAvg: bool, root: real -> real)

  datatype Filter = Filter(
    initialized: bool, frameCount: nat, history: seq<CoorResult>, historyIdx: int,
    prev0: CoorResult, prev1: CoorResult, iir1: real, iir2: real, coef: real,
    locked: CoorResult, jitterLocked: bool, speed: real)

  function NoHistory(): (h: seq<CoorResult>)
    ensures |h| == HISTORY
  {
    seq(HISTORY, _ => NO_RESULT)
  }

  function Fresh(): Filter {
    Filter(false, 0, NoHistory(), 0, NO_RESULT, NO_RESULT, 0.0, 0.0, 0.0, NO_RESULT, false, 0.0)
  }

  ghost predicate Sized(f: Filter) { |f.history| == HISTORY && 0 <= f.historyIdx < HISTORY }

  // ----- the stages -----

  function Averaged(cfg: Config, f: Filter, cur: CoorResult): CoorResult {
    if cfg.enable3PointAvg && f.frameCount >= 2 && f.prev0.valid && f.prev1.valid then
      cur.(dim1 := TruncDiv(f.prev1.dim1 + f.prev0.dim1 + cur.dim1, 3),
        dim2 := TruncDiv(f.prev1.dim2 + f.prev0.dim2 + cur.dim2, 3))
    else cur
  }

  function Distance(cfg: Config, cur: CoorResult, ref: CoorResult): real {
    if !ref.valid then 0.0
    else
      var dx, dy := (cur.dim1 - ref.dim1) as real, (cur.dim2 - ref.dim2) as real;
      (cfg.root)(dx * dx + dy * dy)
  }

  /** Coefficient for a speed: the low and high ones at the thresholds, a line in between. */
  function CalcIIRCoef(cfg: Config, speed: real): real {
    if speed <= cfg.speedLowThr then cfg.iirLowCoef
    else if speed >= cfg.speedHighThr then cfg.iirHighCoef
    else cfg.iirLowCoef
         + (speed - cfg.speedLowThr) / (cfg.speedHighThr - cfg.speedLowThr) * (cfg.iirHighCoef - cfg.iirLowCoef)
  }

  function Blend(a: real, b: real, coef: real): real { a * (1.0 - coef) + b * coef }

  /** Smoothed state and coordinate. */
  function Smoothed(f: Filter, cur: CoorResult): (Filter, CoorResult) {
    if !f.initialized then
      (f.(initialized := true, iir1 := cur.dim1 as real, iir2 := cur.dim2 as real), cur)
    else
      var (i1, i2) := (Blend(f.iir1, cur.dim1 as real, f.coef), Blend(f.iir2, cur.dim2 as real, f.coef));
      (f.(iir1 := i1, iir2 := i2), cur.(dim1 := Round(i1), dim2 := Round(i2)))
  }

  predicate Far(cfg: Config, a: CoorResult, b: CoorResult) {
    Abs(a.dim1 - b.dim1) > cfg.jitterLockThreshold || Abs(a.dim2 - b.dim2) > cfg.jitterLockThreshold
  }

  /** The locked position holds until the smoothed one leaves its neighbourhood. */
  function Locked(cfg: Config, f: Filter, cur: CoorResult): CoorResult {
    if !f.jitterLocked || Far(cfg, cur, f.locked) then cur else f.locked
  }

  function Pushed(f: Filter, raw: CoorResult): Filter
    requires Sized(f)
  {
    f.(history := f.history[f.historyIdx := raw], historyIdx := (f.historyIdx + 1) % HISTORY)
  }

  /** State and coordinate up to the smoothing of a valid sample. */
  function Smoothing(cfg: Config, f: Filter, raw: CoorResult): (Filter, CoorResult)
    requires Sized(f)
  {
    var f1 := Pushed(f, raw);
    var cur := Averaged(cfg, f1, raw);
    var speed := Distance(cfg, cur, f1.history[f1.historyIdx]);
    Smoothed(f1.(speed := speed, coef := CalcIIRCoef(cfg, speed)), cur)
  }

  /** One sample through the chain; an invalid one resets it. */
  function Step(cfg: Config, f: Filter, raw: CoorResult): (Filter, CoorResult)
    requires Sized(f)
  {
    if !raw.valid then (Fresh(), raw)
    else
      var (f1, cur) := Smoothing(cfg, f, raw);
      var out := Locked(cfg, f1, cur);
      (f1.(locked := out, jitterLocked := true, prev1 := f1.prev0, prev0 := out, frameCount := f1.frameCount + 1), out)
  }

  // ----- the output stays in the hull of the inputs -----

  datatype Range = Range(lo: int, hi: int)

  predicate Holds(r: Range, x: int) { r.lo <= x <= r.hi }

  predicate HoldsReal(r: Range, x: real) { r.lo as real <= x <= r.hi as real }

  /** Ranges of the two dimensions. */
  datatype Box = Box(r1: Range, r2: Range)

  predicate In(b: Box, c: CoorResult) { Holds(b.r1, c.dim1) && Holds(b.r2, c.dim2) }

  ghost predicate CoefsOk(cfg: Config) { 0.0 <= cfg.iirLowCoef <= 1.0 && 0.0 <= cfg.iirHighCoef <= 1.0 }

  /** Everything the chain remembers lies in the box. */
  ghost predicate Inside(f: Filter, b: Box) {
    && (f.prev0.valid ==> In(b, f.prev0)) && (f.prev1.valid ==> In(b, f.prev1))
    && (f.initialized ==> HoldsReal(b.r1, f.iir1) && HoldsReal(b.r2, f.iir2))
    && (f.jitterLocked ==> In(b, f.locked) && f.locked.valid)
  }

  /** A point of a line segment lies in every interval that holds both ends. */
  lemma BetweenReals(lo: real, hi: real, t: real, a: real, b: real)
    requires 0.0 <= t <= 1.0 && a <= lo <= b && a <= hi <= b
    ensures a <= lo + t * (hi - lo) <= b
  {
    var d := if lo <= hi then hi - lo else lo - hi;
    ProductNonNegative(t, d);
    ProductNonNegative(1.0 - t, d);
    assert (1.0 - t) * d == d - t * d;
    assert t * (hi - lo) == if lo <= hi then t * d else -(t * d);
  }

  /** The coefficient lies between the two configured ones, whatever the speed. */
  lemma CoefInUnit(cfg: Config, speed: real)
    requires CoefsOk(cfg)
    ensures 0.0 <= CalcIIRCoef(cfg, speed) <= 1.0
  {
    if cfg.speedLowThr < speed < cfg.speedHighThr {
      var t := (speed - cfg.speedLowThr) / (cfg.speedHighThr - cfg.speedLowThr);
      BetweenReals(cfg.iirLowCoef, cfg.iirHighCoef, t, 0.0, 1.0);
    }
  }

  lemma BlendInRange(a: real, b: real, coef: real, r: Range)
    requires HoldsReal(r, a) && HoldsReal(r, b) && 0.0 <= coef <= 1.0
    ensures HoldsReal(r, Blend(a, b, coef))
  {
    BetweenReals(a, b, coef, r.lo as real, r.hi as real);
    assert Blend(a, b, coef) == a + coef * (b - a);
  }

  lemma SmoothedInside(f: Filter, cur: CoorResult, b: Box)
    requires Inside(f, b) && In(b, cur) && 0.0 <= f.coef <= 1.0
    ensures Inside(Smoothed(f, cur).0, b) && In(b, Smoothed(f, cur).1) && Smoothed(f, cur).1.valid == cur.valid
  {
    if f.initialized {
      BlendInRange(f.iir1, cur.dim1 as real, f.coef, b.r1);
      BlendInRange(f.iir2, cur.dim2 as real, f.coef, b.r2);
    }
  }

  lemma SmoothingInside(cfg: Config, f: Filter, raw: CoorResult, b: Box)
    requires Sized(f) && CoefsOk(cfg) && Inside(f, b) && In(b, raw) && raw.valid
    ensures Sized(Smoothing(cfg, f, raw).0) && Inside(Smoothing(cfg, f, raw).0, b)
    ensures In(b, Smoothing(cfg, f, raw).1) && Smoothing(cfg, f, raw).1.valid
  {
    var f1 := Pushed(f, raw);
    var cur := Averaged(cfg, f1, raw);
    var speed := Distance(cfg, cur, f1.history[f1.historyIdx]);
    CoefInUnit(cfg, speed);
    SmoothedInside(f1.(speed := speed, coef := CalcIIRCoef(cfg, speed)), cur, b);
  }

  lemma StepStaysInside(cfg: Config, f: Filter, raw: CoorResult, b: Box)
    requires Sized(f) && CoefsOk(cfg) && Inside(f, b) && In(b, raw) && raw.valid
    ensures Sized(Step(cfg, f, raw).0) && Inside(Step(cfg, f, raw).0, b)
    ensures In(b, Step(cfg, f, raw).1) && Step(cfg, f, raw).1.valid
  {
    SmoothingInside(cfg, f, raw, b);
  }

  /** The output is the smoothed sample or within the jitter threshold of it. */
  lemma OutputNearSmoothed(cfg: Config, f: Filter, raw: CoorResult)
    requires Sized(f) && raw.valid && cfg.jitterLockThreshold >= 0
    ensures var (out, cur) := (Step(cfg, f, raw).1, Smoothing(cfg, f, raw).1);
      Abs(out.dim1 - cur.dim1) <= cfg.jitterLockThreshold && Abs(out.dim2 - cur.dim2) <= cfg.jitterLockThreshold
  {
  }

  // ----- runs -----

  ghost predicate StepAt(cfg: Config, raws: seq<CoorResult>, states: seq<Filter>, outs: seq<CoorResult>, k: nat)
    requires |states| == |raws| + 1 && |outs| == |raws| && k < |raws|
  {
    Sized(states[k]) && (states[k + 1], outs[k]) == Step(cfg, states[k], raws[k])
  }

  ghost predicate IsRun(cfg: Config, raws: seq<CoorResult>, states: seq<Filter>, outs: seq<CoorResult>) {
    && |states| == |raws| + 1 && |outs| == |raws| && states[0] == Fresh()
    && forall k: nat {:trigger StepAt(cfg, raws, states, outs, k)} :: k < |raws| ==> StepAt(cfg, raws, states, outs, k)
  }

  /** The chain was reset before sample `j`: at the start, or by an invalid sample. */
  ghost predicate ResetBefore(raws: seq<CoorResult>, j: nat)
    requires j <= |raws|
  {
    j == 0 || !raws[j - 1].valid
  }

  /** Over any run every output lies, per dimension, between the least and the greatest raw value since the
      last reset. */
  lemma OutputInHull(cfg: Config, raws: seq<CoorResult>, states: seq<Filter>, outs: seq<CoorResult>, j: nat, k: nat,
                     b: Box)
    requires CoefsOk(cfg) && IsRun(cfg, raws, states, outs) && j <= k < |raws| && ResetBefore(raws, j)
    requires forall i :: j <= i <= k ==> raws[i].valid && In(b, raws[i])
    ensures In(b, outs[k]) && outs[k].valid
  {
    if j > 0 { assert StepAt(cfg, raws, states, outs, j - 1); }
    for i := j to k
      invariant Inside(states[i], b)
    {
      assert StepAt(cfg, raws, states, outs, i);
      StepStaysInside(cfg, states[i], raws[i], b);
    }
    assert StepAt(cfg, raws, states, outs, k);
    StepStaysInside(cfg, states[k], raws[k], b);
  }

  // ----- the processor -----

  class CoorPostProcessor {
    const cfg: Config
    var initialized: bool
    var frameCount: nat
    const history: array<CoorResult>
    var historyIdx: int
    var prev0: CoorResult
    var prev1: CoorResult
    var iir1: real
    var iir2: real
    var currentCoef: real
    var lockedCoor: CoorResult
    var jitterLocked: bool
    var speed: real

    ghost predicate Valid()
      reads this
    {
      history.Length == HISTORY && 0 <= historyIdx < HISTORY
    }

    ghost function State(): (f: Filter)
      reads this, history
      requires Valid()
      ensures Sized(f)
    {
      Filter(initialized, frameCount, history[..], historyIdx, prev0, prev1, iir1, iir2, currentCoef, lockedCoor,
        jitterLocked, speed)
    }

    constructor (cfg: Config)
      ensures Valid() && State() == Fresh() && this.cfg == cfg && fresh(history)
    {
      this.cfg := cfg;
      history := new CoorResult[HISTORY](_ => NO_RESULT);
      initialized, frameCount, historyIdx, prev0, prev1 := false, 0, 0, NO_RESULT, NO_RESULT;
      iir1, iir2, currentCoef, lockedCoor, jitterLocked, speed := 0.0, 0.0, 0.0, NO_RESULT, false, 0.0;
      new;
      assert history[..] == NoHistory();
    }

    method Reset()
      requires Valid()
      modifies this, history
      ensures Valid() && State() == Fresh()
    {
      for k := 0 to HISTORY
        invariant forall i :: 0 <= i < k ==> history[i] == NO_RESULT
      {
        history[k] := NO_RESULT;
      }
      initialized, frameCount, historyIdx, prev0, prev1 := false, 0, 0, NO_RESULT, NO_RESULT;
      iir1, iir2, currentCoef, lockedCoor, jitterLocked, speed := 0.0, 0.0, 0.0, NO_RESULT, false, 0.0;
      assert history[..] == NoHistory();
    }

    method PushHistory(cur: CoorResult)
      requires Valid()
      modifies this`historyIdx, history
      ensures Valid() && State() == Pushed(old(State()), cur)
    {
      history[historyIdx] := cur;
      historyIdx := (historyIdx + 1) % HISTORY;
    }

    method ApplyIIR(cur: CoorResult) returns (out: CoorResult)
      requires Valid() && initialized
      modifies this`iir1, this`iir2
      ensures (State(), out) == Smoothed(old(State()), cur)
    {
      ghost var f := State();
      iir1 := Blend(iir1, cur.dim1 as real, currentCoef);
      iir2 := Blend(iir2, cur.dim2 as real, currentCoef);
      assert State() == f.(iir1 := iir1, iir2 := iir2);
      out := cur.(dim1 := Round(iir1), dim2 := Round(iir2));
    }

    method ApplyJitterLock(cur: CoorResult) returns (out: CoorResult)
      requires Valid()
      modifies this`lockedCoor, this`jitterLocked
      ensures out == Locked(cfg, old(State()), cur) && State() == old(State()).(locked := out, jitterLocked := true)
    {
      if !jitterLocked {
        lockedCoor, jitterLocked := cur, true;
        return cur;
      }
      var dx, dy := Abs(cur.dim1 - lockedCoor.dim1), Abs(cur.dim2 - lockedCoor.dim2);
      if dx > cfg.jitterLockThreshold || dy > cfg.jitterLockThreshold {
        lockedCoor := cur;
        return cur;
      }
      return lockedCoor;
    }

    /** Mean of the last two outputs and the sample, once there are two. */
    method Apply3PointAvg(cur: CoorResult) returns (out: CoorResult)
      requires Valid() && cfg.enable3PointAvg && frameCount >= 2
      ensures out == Averaged(cfg, State(), cur)
    {
      if !prev0.valid || !prev1.valid { return cur; }
      out := cur.(dim1 := TruncDiv(prev1.dim1 + prev0.dim1 + cur.dim1, 3),
        dim2 := TruncDiv(prev1.dim2 + prev0.dim2 + cur.dim2, 3));
    }

    /** Average, speed and coefficient, smoothing. */
    method Smooth(raw: CoorResult) returns (cur: CoorResult)
      requires Valid()
      modifies this, history
      ensures Valid() && (State(), cur) == Smoothing(cfg, old(State()), raw)
    {
      cur := raw;
      PushHistory(cur);
      if cfg.enable3PointAvg && frameCount >= 2 { cur := Apply3PointAvg(cur); }
      speed := Distance(cfg, cur, history[historyIdx]);
      currentCoef := CalcIIRCoef(cfg, speed);
      if !initialized {
        iir1, iir2, initialized := cur.dim1 as real, cur.dim2 as real, true;
      } else {
        cur := ApplyIIR(cur);
      }
    }

    /** One sample. */
    method Process(raw: CoorResult) returns (out: CoorResult)
      requires Valid()
      modifies this, history
      ensures Valid() && (State(), out) == Step(cfg, old(State()), raw)
    {
      if !raw.valid {
        Reset();
        return raw;
      }
      var cur := Smooth(raw);
      out := ApplyJitterLock(cur);
      prev1 := prev0;
      prev0 := out;
      frameCount := frameCount + 1;
    }
  }
}
