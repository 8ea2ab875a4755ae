/** What one frame of TouchTracker::Process computes, given the pairing of contacts and tracks. */
module TrackerModel {
  import opened EngineTypes
  import opened Matching

  /** Fixed during a run. `cbrt` and `sqrt` stand for the library's roots. */
  datatype Config = Config(
    useHungarian: bool, maxTrackDistance: real, alwaysMatchDistance: real, edgeTrackBoost: real,
    accThresholdBoost: real, accBoostSizeMm: real, predictionScale: real, liftOffHoldFrames: int,
    touchDownDebounceFrames: int, dynamicDebounceEnabled: bool, touchDownDebounceMaxExtra: int,
    touchDownWeakSignalThreshold: int, touchDownSmallSizeThresholdMm: real,
    touchDownRejectEnabled: bool, touchDownRejectMinSignal: int, touchDownRejectMinSizeMm: real,
    touchDownEdgeRejectMinSignal: int, fallbackSizeMm: real, sizeAreaScale: real, sizeSignalScale: real,
    rxGhostFilterEnabled: bool, rxGhostLineDelta: int, rxGhostWeakRatio: real, rxGhostOnlyNew: bool,
    stylusSuppressGlobalEnabled: bool, stylusSuppressLocalEnabled: bool, stylusSuppressLocalDistance: real,
    stylusSuppressPenPeakThreshold: int, stylusSuppressTouchSignalKeep: int, stylusSuppressTouchAreaKeep: int,
    stylusAftEnabled: bool, stylusAftRecentFrames: int, stylusAftRadius: real, stylusAftDebounceFrames: int,
    stylusAftWeakSignalThreshold: int, stylusAftWeakSizeThresholdMm: real, stylusAftSuppressFrames: int,
    stylusAftPalmSuppressFrames: int, stylusAftPalmAreaThreshold: int, stylusAftPalmSizeThresholdMm: real,
    cbrt: real -> real, sqrt: real -> real)

  datatype Track = Track(
    id: int, x: real, y: real, vx: real, vy: real, area: int, signalSum: int, sizeMm: real,
    age: int, missed: int, downDebounceFrames: int, upEventEmitted: bool, stylusSuppressFrames: int)

  /** The stylus fields of a frame that the tracker reads. */
  datatype Pen = Pen(touchSuppressActive: bool, valid: bool, x: real, y: real, signalX: int, signalY: int,
                     maxRawPeak: int)

  datatype Frame = Frame(contacts: seq<Contact>, pen: Pen)

  datatype State = State(tracks: seq<Track>, nextIdSeed: int, framesSinceActive: int, lastX: real, lastY: real)

  const INIT := State([], 1, 1000000, 0.0, 0.0)

  const FLT_MAX: real := 340282346638528859811704183484516925440.0
  const EDGE_MARGIN := 2.0
  const GRID_ROWS := 40.0
  const GRID_COLS := 60.0

  function IsEdgeTouch(x: real, y: real): bool {
    x <= EDGE_MARGIN || y <= EDGE_MARGIN || x >= GRID_COLS - EDGE_MARGIN || y >= GRID_ROWS - EDGE_MARGIN
  }

  function EstimateSizeMm(cfg: Config, area: int, signalSum: int): real {
    if signalSum > 0 then MaxR(cfg.fallbackSizeMm, cfg.cbrt(signalSum as real) * cfg.sizeSignalScale)
    else if area > 0 then MaxR(cfg.fallbackSizeMm, cfg.sqrt(area as real) * cfg.sizeAreaScale)
    else cfg.fallbackSizeMm
  }

  function TouchDownDebounceFrames(cfg: Config, touch: Contact): int {
    if !cfg.dynamicDebounceEnabled then cfg.touchDownDebounceFrames
    else
      var extra := (if 0 < touch.signalSum < cfg.touchDownWeakSignalThreshold then 1 else 0)
                 + (if 0.0 < touch.sizeMm < cfg.touchDownSmallSizeThresholdMm then 1 else 0)
                 + (if touch.isEdge then 1 else 0);
      cfg.touchDownDebounceFrames + Min(extra, cfg.touchDownDebounceMaxExtra)
  }

  // ----- ids -----

  function Ids(tracks: seq<Track>): (ids: seq<int>)
    ensures |ids| == |tracks| && forall i :: 0 <= i < |ids| ==> ids[i] == tracks[i].id
  {
    seq(|tracks|, i requires 0 <= i < |tracks| => tracks[i].id)
  }

  function ContactIds(contacts: seq<Contact>): (ids: seq<int>)
    ensures |ids| == |contacts| && forall i :: 0 <= i < |ids| ==> ids[i] == contacts[i].id
  {
    seq(|contacts|, i requires 0 <= i < |contacts| => contacts[i].id)
  }

  function Candidate(seed: int, i: nat): int { (seed - 1 + i) % MAX_TOUCHES + 1 }

  /** First id from the seed on, cyclically, that neither sequence uses; 0 when there is none. */
  function FirstFree(seed: int, reserved: seq<int>, current: seq<int>, i: nat): (id: int)
    requires i <= MAX_TOUCHES
    decreases MAX_TOUCHES - i, seed
  {
    if i == MAX_TOUCHES then 0
    else if Candidate(seed, i) in reserved || Candidate(seed, i) in current then
      FirstFree(seed, reserved, current, i + 1)
    else Candidate(seed, i)
  }

  lemma {:induction false} FirstFreeIsFree(seed: int, reserved: seq<int>, current: seq<int>, i: nat)
    requires i <= MAX_TOUCHES && seed >= 1
    ensures var id := FirstFree(seed, reserved, current, i);
            && (id != 0 ==> 1 <= id <= MAX_TOUCHES && id !in reserved && id !in current)
            && (id == 0 ==>
                  forall j :: i <= j < MAX_TOUCHES ==> Candidate(seed, j) in reserved || Candidate(seed, j) in current)
    decreases MAX_TOUCHES - i, seed
  {
    if i < MAX_TOUCHES { FirstFreeIsFree(seed, reserved, current, i + 1); }
  }

  /** Where the candidates reach id `d`. */
  lemma CandidateOf(seed: int, d: int) returns (j: nat)
    requires 1 <= seed <= MAX_TOUCHES && 1 <= d <= MAX_TOUCHES
    ensures j < MAX_TOUCHES && Candidate(seed, j) == d
  {
    j := if d >= seed then d - seed else d - seed + MAX_TOUCHES;
  }

  /** The candidates run through every id, so 0 comes back only when every id is taken. */
  lemma AllocationFailsOnlyWhenFull(seed: int, reserved: seq<int>, current: seq<int>)
    requires 1 <= seed <= MAX_TOUCHES
    ensures FirstFree(seed, reserved, current, 0) == 0 <==>
            forall d :: 1 <= d <= MAX_TOUCHES ==> d in reserved || d in current
  {
    FirstFreeIsFree(seed, reserved, current, 0);
    if FirstFree(seed, reserved, current, 0) == 0 {
      forall d | 1 <= d <= MAX_TOUCHES ensures d in reserved || d in current {
        var j := CandidateOf(seed, d);
        assert Candidate(seed, j) in reserved || Candidate(seed, j) in current;
      }
    }
  }

  // ----- pairing -----

  function PredictedX(cfg: Config, t: Track): real { t.x + t.vx * cfg.predictionScale }

  function PredictedY(cfg: Config, t: Track): real { t.y + t.vy * cfg.predictionScale }

  function Distance(cfg: Config, c: Contact, t: Track): real {
    DistanceSq(c.x, c.y, PredictedX(cfg, t), PredictedY(cfg, t))
  }

  function CostRow(cfg: Config, c: Contact, tracks: seq<Track>): (row: seq<real>)
    ensures |row| == |tracks| && forall p :: 0 <= p < |tracks| ==> row[p] == Distance(cfg, c, tracks[p])
  {
    seq(|tracks|, p requires 0 <= p < |tracks| => Distance(cfg, c, tracks[p]))
  }

  function CostMatrix(cfg: Config, contacts: seq<Contact>, tracks: seq<Track>): (cost: Matrix)
    ensures |cost| == |contacts| && Rectangular(cost) && (|contacts| > 0 ==> Cols(cost) == |tracks|)
    ensures forall c :: 0 <= c < |contacts| ==> cost[c] == CostRow(cfg, contacts[c], tracks)
  {
    seq(|contacts|, c requires 0 <= c < |contacts| => CostRow(cfg, contacts[c], tracks))
  }

  /** `b` is the first of the nearest columns not yet taken, or -1 when none is within range. */
  ghost predicate NearestFree(d: seq<real>, taken: seq<int>, b: int) {
    && -1 <= b < |d|
    && (b == -1 ==> forall p :: 0 <= p < |d| && p !in taken ==> d[p] >= FLT_MAX)
    && (b >= 0 ==> b !in taken && d[b] < FLT_MAX)
    && (b >= 0 ==> forall p :: 0 <= p < |d| && p !in taken ==> d[b] <= d[p] && (p < b ==> d[b] < d[p]))
  }

  /** The greedy alternative: contacts choose in order among the tracks still free. */
  ghost predicate IsGreedy(cost: Matrix, a: seq<int>) {
    |a| == |cost| && forall c :: 0 <= c < |cost| ==> NearestFree(cost[c], a[..c], a[c])
  }

  function TooFar(cfg: Config, c: Contact, t: Track): bool {
    var edge := IsEdgeTouch(t.x, t.y) || IsEdgeTouch(c.x, c.y);
    var base := cfg.maxTrackDistance * cfg.maxTrackDistance;
    var boosted := if edge then base * (cfg.edgeTrackBoost * cfg.edgeTrackBoost) else base;
    var size := MaxR(t.sizeMm, EstimateSizeMm(cfg, c.area, c.signalSum));
    var thresh := if edge || size <= cfg.accBoostSizeMm
                  then boosted * (cfg.accThresholdBoost * cfg.accThresholdBoost) else boosted;
    Distance(cfg, c, t) > thresh
  }

  /** The distance gate drops pairs that moved too far. */
  ghost predicate Gated(cfg: Config, contacts: seq<Contact>, tracks: seq<Track>, h: seq<int>, g: seq<int>) {
    && |h| == |g| == |contacts|
    && (forall c :: 0 <= c < |h| ==> -1 <= h[c] < |tracks|)
    && (forall c :: 0 <= c < |g| ==>
          g[c] == if h[c] >= 0 && TooFar(cfg, contacts[c], tracks[h[c]]) then -1 else h[c])
  }

  /** An unmatched contact off the border takes the nearest free track if it is close. */
  ghost predicate Saved(cfg: Config, c: Contact, tracks: seq<Track>, taken: seq<int>, pre: int, always: bool) {
    exists b :: NearestFree(CostRow(cfg, c, tracks), taken, b)
      && always == (b >= 0 && Distance(cfg, c, tracks[b]) <= cfg.alwaysMatchDistance * cfg.alwaysMatchDistance
                    && !IsEdgeTouch(c.x, c.y))
      && pre == if always then b else -1
  }

  /** The fallback, contact by contact; gated pairs and earlier rescues are out of reach. */
  ghost predicate Rescued(cfg: Config, contacts: seq<Contact>, tracks: seq<Track>, g: seq<int>, m: seq<int>,
                          always: seq<bool>) {
    && |g| == |m| == |always| == |contacts|
    && (forall c :: 0 <= c < |g| && g[c] >= 0 ==> m[c] == g[c] && !always[c])
    && (forall c :: 0 <= c < |g| && g[c] < 0 ==> Saved(cfg, contacts[c], tracks, g + m[..c], m[c], always[c]))
  }

  /** The pairing the tracker ends up with. */
  ghost predicate Paired(cfg: Config, contacts: seq<Contact>, tracks: seq<Track>, m: seq<int>, always: seq<bool>) {
    && |m| == |always| == |contacts|
    && if |contacts| == 0 || |tracks| == 0 then forall c :: 0 <= c < |m| ==> m[c] == -1 && !always[c]
       else
         var cost := CostMatrix(cfg, contacts, tracks);
         exists h: seq<int>, g: seq<int> ::
           && (if cfg.useHungarian then IsOptimal(cost, h) else IsGreedy(cost, h))
           && Gated(cfg, contacts, tracks, h, g)
           && Rescued(cfg, contacts, tracks, g, m, always)
  }

  /** Whatever the costs, no two contacts end up on one track. */
  lemma PairingIsInjective(cfg: Config, contacts: seq<Contact>, tracks: seq<Track>, m: seq<int>, always: seq<bool>)
    requires Paired(cfg, contacts, tracks, m, always)
    ensures IsMatching(m, |contacts|, |tracks|)
  {
    if |contacts| > 0 && |tracks| > 0 {
      var cost := CostMatrix(cfg, contacts, tracks);
      var h: seq<int>, g: seq<int> :|
        && (if cfg.useHungarian then IsOptimal(cost, h) else IsGreedy(cost, h))
        && Gated(cfg, contacts, tracks, h, g)
        && Rescued(cfg, contacts, tracks, g, m, always);
      if !cfg.useHungarian { GreedyIsMatching(cost, h, |tracks|); }
      GatedIsMatching(cfg, contacts, tracks, h, g);
      RescuedIsMatching(cfg, contacts, tracks, g, m, always);
    }
  }

  lemma GreedyIsMatching(cost: Matrix, h: seq<int>, cols: nat)
    requires IsGreedy(cost, h) && forall c :: 0 <= c < |cost| ==> |cost[c]| == cols
    ensures IsMatching(h, |cost|, cols)
  {
    forall r, s | 0 <= r < s < |h| && h[r] >= 0 ensures h[r] != h[s] {
      assert NearestFree(cost[s], h[..s], h[s]);
      assert h[..s][r] == h[r];
    }
    forall r | 0 <= r < |h| ensures -1 <= h[r] < cols {
      assert NearestFree(cost[r], h[..r], h[r]);
    }
  }

  lemma GatedIsMatching(cfg: Config, contacts: seq<Contact>, tracks: seq<Track>, h: seq<int>, g: seq<int>)
    requires IsMatching(h, |contacts|, |tracks|) && Gated(cfg, contacts, tracks, h, g)
    ensures IsMatching(g, |contacts|, |tracks|)
  {
    forall r, s | 0 <= r < s < |g| && g[r] >= 0 ensures g[r] != g[s] {
      assert g[r] == h[r] && h[r] != h[s];
    }
  }

  lemma RescuedIsMatching(cfg: Config, contacts: seq<Contact>, tracks: seq<Track>, g: seq<int>, m: seq<int>,
                          always: seq<bool>)
    requires IsMatching(g, |contacts|, |tracks|) && Rescued(cfg, contacts, tracks, g, m, always)
    ensures IsMatching(m, |contacts|, |tracks|)
  {
    forall r, s | 0 <= r < |m| && 0 <= s < |m| && r != s && m[r] >= 0 && g[s] < 0 && m[s] >= 0
                  && (g[r] >= 0 || r < s)
      ensures m[r] != m[s]
    {
      assert Saved(cfg, contacts[s], tracks, g + m[..s], m[s], always[s]);
      if g[r] >= 0 { assert (g + m[..s])[r] == m[r]; } else { assert (g + m[..s])[|g| + r] == m[r]; }
    }
    forall c | 0 <= c < |m| ensures -1 <= m[c] < |tracks| {
      if g[c] < 0 { assert Saved(cfg, contacts[c], tracks, g + m[..c], m[c], always[c]); }
    }
  }

  // ----- pen interference -----

  /** Anti-falsing context: a pen position seen recently enough. */
  datatype Aft = Aft(active: bool, x: real, y: real)

  function SinceActive(cfg: Config, s: State, pen: Pen): int {
    if !cfg.stylusAftEnabled then s.framesSinceActive
    else if pen.valid then 0
    else if s.framesSinceActive < 1000000 then s.framesSinceActive + 1
    else s.framesSinceActive
  }

  function LastPen(cfg: Config, s: State, pen: Pen): (real, real) {
    if cfg.stylusAftEnabled && pen.valid then (pen.x, pen.y) else (s.lastX, s.lastY)
  }

  function AftContext(cfg: Config, s: State, pen: Pen): Aft {
    if cfg.stylusAftEnabled && SinceActive(cfg, s, pen) <= cfg.stylusAftRecentFrames
    then Aft(true, LastPen(cfg, s, pen).0, LastPen(cfg, s, pen).1)
    else Aft(false, 0.0, 0.0)
  }

  /** Frames of suppression a touch near the pen earns; None when it is not suppressed. */
  function AftHold(cfg: Config, touch: Contact, age: int, aft: Aft): Option<int> {
    if !cfg.stylusAftEnabled then None
    else if DistanceSq(touch.x, touch.y, aft.x, aft.y) > cfg.stylusAftRadius * cfg.stylusAftRadius then None
    else if touch.area >= cfg.stylusAftPalmAreaThreshold || touch.sizeMm >= cfg.stylusAftPalmSizeThresholdMm
    then Some(cfg.stylusAftPalmSuppressFrames)
    else if (touch.signalSum < cfg.stylusAftWeakSignalThreshold && touch.sizeMm < cfg.stylusAftWeakSizeThresholdMm)
            || age <= cfg.stylusAftDebounceFrames
    then Some(cfg.stylusAftSuppressFrames)
    else None
  }

  function GloballySuppressed(cfg: Config, pen: Pen): bool {
    cfg.stylusSuppressGlobalEnabled && pen.touchSuppressActive
  }

  function NearPen(cfg: Config, pen: Pen, c: Contact): bool {
    && cfg.stylusSuppressLocalEnabled && pen.valid
    && Max(Max(pen.signalX, pen.signalY), pen.maxRawPeak) >= cfg.stylusSuppressPenPeakThreshold
    && DistanceSq(c.x, c.y, pen.x, pen.y) <= cfg.stylusSuppressLocalDistance * cfg.stylusSuppressLocalDistance
    && !(c.signalSum >= cfg.stylusSuppressTouchSignalKeep && c.area >= cfg.stylusSuppressTouchAreaKeep)
  }

  /** Contacts left after the pen removed the ones near it. */
  function Surviving(cfg: Config, pen: Pen, contacts: seq<Contact>): seq<Contact> {
    if |contacts| == 0 then []
    else
      var rest := Surviving(cfg, pen, contacts[..|contacts| - 1]);
      var c := contacts[|contacts| - 1];
      if NearPen(cfg, pen, c) then rest else rest + [c]
  }

  function Admitted(cfg: Config, frame: Frame): seq<Contact> {
    Surviving(cfg, frame.pen, if |frame.contacts| > MAX_TOUCHES then frame.contacts[..MAX_TOUCHES] else frame.contacts)
  }

  // ----- next tracks and reported contacts -----

  datatype Build = Build(out: seq<Contact>, next: seq<Track>, seed: int)

  /** The vectors never grow past the touch limit. */
  function Push<T>(s: seq<T>, x: T): seq<T> {
    if |s| < MAX_TOUCHES then s + [x] else s
  }

  /** A contact matched to track `t`, at index `pre`. */
  function Follow(cfg: Config, aft: Aft, t: Track, pre: int, c: Contact, always: bool): (Contact, Track) {
    var edge := IsEdgeTouch(c.x, c.y);
    var size := MaxR(MaxR(EstimateSizeMm(cfg, c.area, c.signalSum), t.sizeMm), cfg.fallbackSizeMm);
    var debounced := t.downDebounceFrames > 0;
    var o := c.(id := t.id, prevIndex := pre, isEdge := edge, sizeMm := size,
                state := if t.age <= 1 || debounced then StateDown else StateMove,
                lifeFlags := {LifeMapped} + (if edge then {LifeEdge} else {})
                           + (if always then {LifeAlwaysMatch} else {}) + (if debounced then {LifeDebounced} else {}));
    var wait := if !aft.active && t.stylusSuppressFrames > 0 then t.stylusSuppressFrames - 1
      else t.stylusSuppressFrames;
    var hold := AftHold(cfg, o, t.age + 1, aft);
    var suppressed := aft.active && (wait > 0 || hold.Some?);
    var wait' := if aft.active && wait > 0 then wait - 1
                 else if aft.active && hold.Some? then Max(0, hold.value - 1)
                 else wait;
    (o.(isReported := !suppressed, reportEvent := ReportIdle, reportFlags := 0,
        debugFlags := if suppressed then 0x101 else 0x01),
     t.(x := c.x, y := c.y, vx := c.x - t.x, vy := c.y - t.y, area := c.area, signalSum := c.signalSum,
        sizeMm := size, age := t.age + 1, missed := 0, upEventEmitted := false,
        downDebounceFrames := if debounced then t.downDebounceFrames - 1 else t.downDebounceFrames,
        stylusSuppressFrames := wait'))
  }

  /** A weak and tiny contact, or a weak one on the border, starts no track. */
  function Rejected(cfg: Config, c: Contact): bool {
    && cfg.touchDownRejectEnabled
    && ((c.signalSum < cfg.touchDownRejectMinSignal
         && EstimateSizeMm(cfg, c.area, c.signalSum) < cfg.touchDownRejectMinSizeMm)
        || (IsEdgeTouch(c.x, c.y) && c.signalSum < cfg.touchDownEdgeRejectMinSignal))
  }

  /** A contact that starts track `id`. */
  function Begin(cfg: Config, aft: Aft, id: int, c: Contact): (Contact, Track) {
    var size := EstimateSizeMm(cfg, c.area, c.signalSum);
    var edge := IsEdgeTouch(c.x, c.y);
    var e := c.(isEdge := edge);
    var debounce := TouchDownDebounceFrames(cfg, e);
    var hold := AftHold(cfg, e, 1, aft);
    var wait := if aft.active && hold.Some? then Max(0, hold.value - 1) else 0;
    (e.(id := id, state := StateDown, sizeMm := size, isReported := wait <= 0, prevIndex := -1, debugFlags := 0x02,
        lifeFlags := {LifeNew} + (if edge then {LifeEdge} else {}) + (if debounce > 0 then {LifeDebounced} else {}),
        reportEvent := ReportIdle, reportFlags := 0),
     Track(id, c.x, c.y, 0.0, 0.0, c.area, c.signalSum, size, 1, 0,
           if debounce > 0 then debounce - 1 else debounce, false, wait))
  }

  function LiveStep(cfg: Config, aft: Aft, tracks: seq<Track>, c: Contact, pre: int, always: bool, b: Build): Build
    requires -1 <= pre < |tracks|
  {
    if pre >= 0 then
      var (o, t) := Follow(cfg, aft, tracks[pre], pre, c, always);
      Build(Push(b.out, o), Push(b.next, t), b.seed)
    else
      var id := FirstFree(b.seed, Ids(b.next), Ids(tracks), 0);
      if id == 0 || Rejected(cfg, c) then b
      else
        var (o, t) := Begin(cfg, aft, id, c);
        Build(Push(b.out, o), Push(b.next, t), id % MAX_TOUCHES + 1)
  }

  /** The first `k` contacts of the frame. */
  function Live(cfg: Config, aft: Aft, tracks: seq<Track>, contacts: seq<Contact>, m: seq<int>, always: seq<bool>,
                seed: int, k: nat): Build
    requires |contacts| == |m| == |always| && k <= |m|
    requires forall c :: 0 <= c < |m| ==> -1 <= m[c] < |tracks|
  {
    if k == 0 then Build([], [], seed)
    else LiveStep(cfg, aft, tracks, contacts[k - 1], m[k - 1], always[k - 1],
                  Live(cfg, aft, tracks, contacts, m, always, seed, k - 1))
  }

  /** An unmatched track one frame older. */
  function Aged(cfg: Config, t: Track): Track {
    var t1 := t.(missed := t.missed + 1,
                 stylusSuppressFrames := if t.stylusSuppressFrames > 0 then t.stylusSuppressFrames - 1
                   else t.stylusSuppressFrames);
    if Lifts(cfg, t) then t1.(upEventEmitted := true) else t1
  }

  /** The track goes missing for longer than the hold, for the first time. */
  function Lifts(cfg: Config, t: Track): bool {
    !t.upEventEmitted && t.missed + 1 > cfg.liftOffHoldFrames
  }

  function Kept(cfg: Config, t: Track): bool {
    t.missed + 1 <= cfg.liftOffHoldFrames + 1
  }

  /** The lift-off contact of track `t`, at index `p`. */
  function UpContact(t: Track, p: int): Contact {
    var edge := IsEdgeTouch(t.x, t.y);
    BLANK.(id := t.id, x := t.x, y := t.y, state := StateUp, area := t.area, signalSum := t.signalSum,
      sizeMm := t.sizeMm,
           isEdge := edge, isReported := true, prevIndex := p, debugFlags := 0x04,
           lifeFlags := {LifeLiftOff} + (if edge then {LifeEdge} else {}), reportFlags := 0, reportEvent := ReportUp)
  }

  function LiftStep(cfg: Config, t: Track, p: int, b: Build): Build {
    var t' := Aged(cfg, t);
    Build(if Lifts(cfg, t) then Push(b.out, UpContact(t', p)) else b.out,
          if Kept(cfg, t) then Push(b.next, t'.(vx := 0.0, vy := 0.0)) else b.next,
          b.seed)
  }

  /** The first `k` tracks, skipping the matched ones. */
  function Lift(cfg: Config, tracks: seq<Track>, m: seq<int>, b: Build, k: nat): Build
    requires k <= |tracks|
  {
    if k == 0 then b
    else if k - 1 in m then Lift(cfg, tracks, m, b, k - 1)
    else LiftStep(cfg, tracks[k - 1], k - 1, Lift(cfg, tracks, m, b, k - 1))
  }

  // ----- ghost filter -----

  function Filterable(c: Contact): bool {
    c.state != StateUp && 1 <= c.id <= MAX_TOUCHES
  }

  function Stronger(a: Contact, b: Contact): Contact { if b.signalSum > a.signalSum then b else a }

  function Weaker(a: Contact, b: Contact): Contact { if b.signalSum > a.signalSum then a else b }

  /** The weaker of two contacts on one receive line looks like a ghost of the stronger. */
  function Ghosts(cfg: Config, a: Contact, b: Contact): bool {
    && Filterable(a) && Filterable(b)
    && Abs(Round(a.y) - Round(b.y)) <= cfg.rxGhostLineDelta
    && Weaker(a, b).signalSum < Trunc(Stronger(a, b).signalSum as real * cfg.rxGhostWeakRatio)
    && (cfg.rxGhostOnlyNew ==> Weaker(a, b).state == StateDown)
  }

  /** The ids the filter removes, from pairs whose first member is before `k`. */
  ghost function GhostIds(cfg: Config, out: seq<Contact>, k: nat): set<int>
    requires k <= |out|
  {
    set i, j | 0 <= i < k && i < j < |out| && Ghosts(cfg, out[i], out[j]) :: Weaker(out[i], out[j]).id
  }

  function WithoutContacts(out: seq<Contact>, gone: set<int>): seq<Contact> {
    if |out| == 0 then []
    else
      var rest := WithoutContacts(out[..|out| - 1], gone);
      var c := out[|out| - 1];
      if Filterable(c) && c.id in gone then rest else rest + [c]
  }

  function WithoutTracks(tracks: seq<Track>, gone: set<int>): seq<Track> {
    if |tracks| == 0 then []
    else
      var rest := WithoutTracks(tracks[..|tracks| - 1], gone);
      var t := tracks[|tracks| - 1];
      if 1 <= t.id <= MAX_TOUCHES && t.id in gone then rest else rest + [t]
  }

  ghost function Unghosted(cfg: Config, b: Build): Build {
    if cfg.rxGhostFilterEnabled && |b.out| > 1 then
      var gone := GhostIds(cfg, b.out, |b.out|);
      Build(WithoutContacts(b.out, gone), WithoutTracks(b.next, gone), b.seed)
    else b
  }

  // ----- one frame -----

  ghost function Built(cfg: Config, s: State, frame: Frame, m: seq<int>, always: seq<bool>): Build
    requires |Admitted(cfg, frame)| == |m| == |always|
    requires forall c :: 0 <= c < |m| ==> -1 <= m[c] < |s.tracks|
  {
    Lift(cfg, s.tracks, m,
         Live(cfg, AftContext(cfg, s, frame.pen), s.tracks, Admitted(cfg, frame), m, always, s.nextIdSeed, |m|),
         |s.tracks|)
  }

  /** `s` turns into `s'` and reports `out`. */
  ghost predicate Step(cfg: Config, s: State, frame: Frame, out: seq<Contact>, s': State) {
    if GloballySuppressed(cfg, frame.pen) then out == [] && s' == s.(tracks := [])
    else exists m: seq<int>, always: seq<bool> ::
      && Paired(cfg, Admitted(cfg, frame), s.tracks, m, always)
      && IsMatching(m, |Admitted(cfg, frame)|, |s.tracks|)
      && var b := Unghosted(cfg, Built(cfg, s, frame, m, always));
         && out == b.out
         && s' == State(b.next, b.seed, SinceActive(cfg, s, frame.pen), LastPen(cfg, s, frame.pen).0,
              LastPen(cfg, s, frame.pen).1)
  }
}
