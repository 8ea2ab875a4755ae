/** What every run of the frequency tracker keeps: request spacing, pending age, confirmed frequencies. */
module AfeLife {
  import opened Afe

  datatype Op =
    | FrameOp(w: Words)
    | HeartbeatOp(freq1: int, freq2: int)
    | SetIdOp(penId: int, linked: bool)
    | ClearOp(cmd: int, linked: bool)
    | InitOp(linked: bool, sent: bool)
    | DisconnectOp(linked: bool)

  /** State after an operation, and whether it requests a switch. */
  function Apply(s: StylusState, op: Op): (StylusState, bool) {
    match op
    case FrameOp(w) => Frame(s, w)
    case HeartbeatOp(f1, f2) => (Heartbeat(s, f1, f2), false)
    case SetIdOp(penId, linked) => (if linked then WithPen(s, penId) else s, false)
    case ClearOp(cmd, linked) => (if linked && ClearsRequest(cmd) then s.(switchReqPending := false) else s, false)
    case InitOp(linked, sent) => (if linked && sent then Initialised(s) else s, false)
    case DisconnectOp(linked) => (if linked then NO_STYLUS else s, false)
  }

  /** Operations of an undisturbed session: no re-init, no disconnect, no clearing of the request. */
  predicate Steady(op: Op) {
    match op
    case ClearOp(cmd, linked) => !(linked && ClearsRequest(cmd))
    case InitOp(linked, sent) => !(linked && sent)
    case DisconnectOp(linked) => !linked
    case _ => true
  }

  // ----- what every operation keeps -----

  /** Counters are words, indices are 0 or 1, a pending request is at most 360 frames old. */
  ghost predicate StateOk(s: StylusState) {
    && 0 <= s.frameCounter < WORD && 0 <= s.switchReqFrame < WORD && 0 <= s.lastSwitchFrame < WORD
    && s.freqIdx in {0, 1} && s.switchTargetIdx in {0, 1}
    && (s.switchReqPending ==> Ago(s.frameCounter, s.switchReqFrame) <= PENDING_TIMEOUT)
  }

  /** The same just after the counter moved. */
  ghost predicate Ticked(s: StylusState) {
    && 0 <= s.frameCounter < WORD && 0 <= s.switchReqFrame < WORD && 0 <= s.lastSwitchFrame < WORD
    && s.freqIdx in {0, 1} && s.switchTargetIdx in {0, 1}
    && (s.switchReqPending ==> Ago(s.frameCounter, s.switchReqFrame) <= PENDING_TIMEOUT + 1)
  }

  lemma TickKeepsState(s: StylusState, w: Words)
    requires StateOk(s)
    ensures Ticked(Confirmed(Watched(s.(frameCounter := Next(s.frameCounter))), w))
  {
    assert Ticked(s.(frameCounter := Next(s.frameCounter)));
  }

  lemma DecidedKeepsState(s: StylusState, w: Words)
    requires Ticked(s) && !s.switchReqPending
    ensures StateOk(Decided(s, w).0)
  {
    assert StateOk(MismatchWatched(s, w));
  }

  lemma FrameKeepsState(s: StylusState, w: Words)
    requires StateOk(s)
    ensures StateOk(Frame(s, w).0)
  {
    if Tracking(s) {
      var s1 := Confirmed(Watched(s.(frameCounter := Next(s.frameCounter))), w);
      TickKeepsState(s, w);
      if !s1.switchReqPending { DecidedKeepsState(s1, w); }
    }
  }

  lemma ApplyKeepsState(s: StylusState, op: Op)
    requires StateOk(s)
    ensures StateOk(Apply(s, op).0)
  {
    if op.FrameOp? { FrameKeepsState(s, op.w); }
  }

  /** Deciding on a request moves neither the frequency nor the counter. */
  lemma DecidedKeeps(s: StylusState, w: Words)
    ensures Decided(s, w).0.freqIdx == s.freqIdx && Decided(s, w).0.frameCounter == s.frameCounter
  {
  }

  lemma FrameFrequency(s: StylusState, w: Words)
    requires Frame(s, w).0.freqIdx != s.freqIdx
    ensures w.freqDone != 0 && s.switchReqPending && Frame(s, w).0.freqIdx == s.switchTargetIdx
  {
    DecidedKeeps(Confirmed(Watched(s.(frameCounter := Next(s.frameCounter))), w), w);
  }

  /** The frequency index changes only when the chip confirms a pending switch, and then to its target, or
      when a pen is connected anew or removed. */
  lemma FrequencyChangesOnlyWhenConfirmed(s: StylusState, op: Op)
    requires Apply(s, op).0.freqIdx != s.freqIdx
    ensures !Steady(op) || (op.FrameOp? && op.w.freqDone != 0 && s.switchReqPending
            && Apply(s, op).0.freqIdx == s.switchTargetIdx)
  {
    if op.FrameOp? { FrameFrequency(s, op.w); }
  }

  // ----- runs -----

  ghost predicate IsRun(s: StylusState, ops: seq<Op>, states: seq<StylusState>) {
    && |states| == |ops| + 1 && states[0] == s
    && forall i: nat {:trigger StepAt(ops, states, i)} :: i < |ops| ==> StepAt(ops, states, i)
  }

  ghost predicate StepAt(ops: seq<Op>, states: seq<StylusState>, i: nat)
    requires |states| == |ops| + 1 && i < |ops|
  {
    states[i + 1] == Apply(states[i], ops[i]).0
  }

  ghost predicate Requests(ops: seq<Op>, states: seq<StylusState>, i: int)
    requires |states| == |ops| + 1 && 0 <= i < |ops|
  {
    Apply(states[i], ops[i]).1
  }

  /** Status frames among the first `i` operations. */
  ghost function Frames(ops: seq<Op>, i: nat): nat
    requires i <= |ops|
  {
    if i == 0 then 0 else Frames(ops, i - 1) + if ops[i - 1].FrameOp? then 1 else 0
  }

  ghost predicate AllSteady(ops: seq<Op>) { forall i :: 0 <= i < |ops| ==> Steady(ops[i]) }

  lemma {:induction false} RunKeepsState(s: StylusState, ops: seq<Op>, states: seq<StylusState>, n: nat)
    requires IsRun(s, ops, states) && StateOk(s) && n <= |ops|
    ensures StateOk(states[n])
  {
    for k := 0 to n
      invariant StateOk(states[k])
    {
      assert StepAt(ops, states, k);
      ApplyKeepsState(states[k], ops[k]);
    }
  }

  lemma {:induction false} FramesGrow(ops: seq<Op>, i: nat, j: nat)
    requires i <= j <= |ops|
    ensures Frames(ops, i) <= Frames(ops, j)
  {
    if i < j { FramesGrow(ops, i, j - 1); }
  }

  // ----- spacing of requests -----

  const SPACING: int := COOLDOWN_FRAMES + 1

  /** `since` frames after a request made at counter `at`: still pending, or cooling down after the switch. */
  ghost predicate Spaced(s: StylusState, at: int, since: nat) {
    since < SPACING ==>
      && Tracking(s) && s.frameCounter == at + since
      && (if s.switchReqPending then s.switchReqFrame == at
          else 0 < s.lastSwitchFrame && at < s.lastSwitchFrame <= s.frameCounter)
  }

  lemma RequestIsSpaced(s: StylusState, op: Op)
    requires StateOk(s) && Apply(s, op).1
    ensures var s1 := Apply(s, op).0;
      op.FrameOp? && s1.switchReqPending && s1.switchReqFrame == s1.frameCounter && Spaced(s1, s1.frameCounter, 0)
  {
  }

  /** `later` frames after a request made at `at`: the spacing is over, or the counter has not wrapped. */
  ghost predicate Unwrapped(at: int, later: int) { 0 <= at && (later >= SPACING || at + later < WORD) }

  /** The counter stays clear of its wrap while the spacing of a request made at `at` is at stake, `n` frames long. */
  ghost predicate ClearOfWrap(at: int, n: int) {
    0 <= at && (at + COOLDOWN_FRAMES < WORD || at + n < WORD)
  }

  /** Right after the counter moved the chip may have confirmed the switch, which starts the cooldown. */
  lemma TickSpaced(s: StylusState, w: Words, at: int, since: nat)
    requires StateOk(s) && Unwrapped(at, since + 1) && Spaced(s, at, since)
    ensures Spaced(Confirmed(Watched(s.(frameCounter := Next(s.frameCounter))), w), at, since + 1)
  {
  }

  lemma FrameSpaced(s: StylusState, w: Words, at: int, since: nat)
    requires StateOk(s) && Unwrapped(at, since + 1) && Spaced(s, at, since)
    ensures Spaced(Frame(s, w).0, at, since + 1) && (Frame(s, w).1 ==> since + 1 >= SPACING)
  {
    if since + 1 < SPACING {
      var s1 := Confirmed(Watched(s.(frameCounter := Next(s.frameCounter))), w);
      TickSpaced(s, w, at, since);
      assert s1.switchReqPending || Cooling(s1);
    }
  }

  lemma SpacedStep(s: StylusState, op: Op, at: int, since: nat)
    requires StateOk(s) && Steady(op) && Spaced(s, at, since) && 0 <= at
    requires op.FrameOp? ==> Unwrapped(at, since + 1)
    ensures var later := since + if op.FrameOp? then 1 else 0;
      Spaced(Apply(s, op).0, at, later) && (Apply(s, op).1 ==> later >= SPACING)
  {
    if op.FrameOp? { FrameSpaced(s, op.w, at, since); }
  }

  /** Requests keep their distance from operation `i` up to operation `k`. */
  lemma {:induction false} SpacedFrom(s: StylusState, ops: seq<Op>, states: seq<StylusState>, i: nat, k: nat, at: int)
    requires IsRun(s, ops, states) && StateOk(s) && AllSteady(ops) && i <= k <= |ops|
    requires Spaced(states[i], at, 0) && Frames(ops, i) <= Frames(ops, k)
    requires ClearOfWrap(at, Frames(ops, k) - Frames(ops, i))
    ensures Spaced(states[k], at, Frames(ops, k) - Frames(ops, i))
  {
    if i < k {
      FramesGrow(ops, i, k - 1);
      SpacedFrom(s, ops, states, i, k - 1, at);
      RunKeepsState(s, ops, states, k - 1);
      assert StepAt(ops, states, k - 1) && Steady(ops[k - 1]);
      SpacedStep(states[k - 1], ops[k - 1], at, Frames(ops, k - 1) - Frames(ops, i));
    }
  }

  /** In an undisturbed session two requests are at least 121 status frames apart, unless the counter wraps
      between them and within 120 counts of the first. */
  lemma RequestsApart(s: StylusState, ops: seq<Op>, states: seq<StylusState>, i: nat, j: nat)
    requires IsRun(s, ops, states) && StateOk(s) && AllSteady(ops) && i < j < |ops|
    requires Requests(ops, states, i) && Requests(ops, states, j)
    requires ClearOfWrap(states[i + 1].frameCounter, Frames(ops, j + 1) - Frames(ops, i + 1))
    ensures Frames(ops, j + 1) - Frames(ops, i + 1) >= SPACING
  {
    var at := states[i + 1].frameCounter;
    RequestStarts(s, ops, states, i);
    FramesGrow(ops, i + 1, j);
    SpacedFrom(s, ops, states, i + 1, j, at);
    RunKeepsState(s, ops, states, j);
    assert Steady(ops[j]);
    SpacedStep(states[j], ops[j], at, Frames(ops, j) - Frames(ops, i + 1));
  }

  lemma RequestStarts(s: StylusState, ops: seq<Op>, states: seq<StylusState>, i: nat)
    requires IsRun(s, ops, states) && StateOk(s) && i < |ops| && Requests(ops, states, i)
    ensures ops[i].FrameOp? && states[i + 1].frameCounter >= 0 && Spaced(states[i + 1], states[i + 1].frameCounter, 0)
  {
    RunKeepsState(s, ops, states, i);
    assert StepAt(ops, states, i);
    RequestIsSpaced(states[i], ops[i]);
    ApplyKeepsState(states[i], ops[i]);
  }

  // ----- requests and wraps -----

  /** The counter wraps in operation `i`. */
  ghost predicate WrapsAt(ops: seq<Op>, states: seq<StylusState>, i: int)
    requires |states| == |ops| + 1 && 0 <= i < |ops|
  {
    ops[i].FrameOp? && states[i].frameCounter == WORD - 1 && states[i + 1].frameCounter == 0
  }

  /** Wraps of the counter from operation `lo` to before `hi`. */
  ghost function Wraps(ops: seq<Op>, states: seq<StylusState>, lo: nat, hi: nat): nat
    requires |states| == |ops| + 1 && lo <= hi <= |ops|
  {
    if lo == hi then 0 else Wraps(ops, states, lo, hi - 1) + if WrapsAt(ops, states, hi - 1) then 1 else 0
  }

  lemma {:induction false} WrapsSplit(ops: seq<Op>, states: seq<StylusState>, lo: nat, mid: nat, hi: nat)
    requires |states| == |ops| + 1 && lo <= mid <= hi <= |ops|
    ensures Wraps(ops, states, lo, hi) == Wraps(ops, states, lo, mid) + Wraps(ops, states, mid, hi)
  {
    if mid < hi { WrapsSplit(ops, states, lo, mid, hi - 1); }
  }

  /** A frame of a tracked pen moves the counter on. */
  lemma FrameCounts(s: StylusState, w: Words)
    requires Tracking(s)
    ensures Frame(s, w).0.frameCounter == Next(s.frameCounter)
  {
    DecidedKeeps(Confirmed(Watched(s.(frameCounter := Next(s.frameCounter))), w), w);
  }

  /** An operation that does not wrap the counter keeps the spacing. */
  lemma SpacedUnlessWrap(s: StylusState, op: Op, s': StylusState, at: int, since: nat)
    requires StateOk(s) && Steady(op) && Spaced(s, at, since) && 0 <= at && s' == Apply(s, op).0
    requires !(op.FrameOp? && s.frameCounter == WORD - 1 && s'.frameCounter == 0)
    ensures var later := since + if op.FrameOp? then 1 else 0;
      Spaced(s', at, later) && (Apply(s, op).1 ==> later >= SPACING)
  {
    if op.FrameOp? && since + 1 < SPACING { FrameCounts(s, op.w); }
    SpacedStep(s, op, at, since);
  }

  lemma {:induction false} SpacedUntilWrap(s: StylusState, ops: seq<Op>, states: seq<StylusState>, i: nat, k: nat,
                                           at: int)
    requires IsRun(s, ops, states) && StateOk(s) && AllSteady(ops) && i <= k <= |ops|
    requires Spaced(states[i], at, 0) && 0 <= at && Frames(ops, i) <= Frames(ops, k) && Wraps(ops, states, i, k) == 0
    ensures Spaced(states[k], at, Frames(ops, k) - Frames(ops, i))
  {
    if i < k {
      FramesGrow(ops, i, k - 1);
      SpacedUntilWrap(s, ops, states, i, k - 1, at);
      RunKeepsState(s, ops, states, k - 1);
      assert StepAt(ops, states, k - 1) && Steady(ops[k - 1]) && !WrapsAt(ops, states, k - 1);
      SpacedUnlessWrap(states[k - 1], ops[k - 1], states[k], at, Frames(ops, k - 1) - Frames(ops, i));
    }
  }

  /** In an undisturbed session two requests are at least 121 status frames apart, or the counter wraps between
      them. */
  lemma ApartUnlessWrap(s: StylusState, ops: seq<Op>, states: seq<StylusState>, i: nat, j: nat)
    requires IsRun(s, ops, states) && StateOk(s) && AllSteady(ops) && i < j < |ops|
    requires Requests(ops, states, i) && Requests(ops, states, j)
    ensures Frames(ops, j + 1) - Frames(ops, i + 1) >= SPACING || Wraps(ops, states, i + 1, j + 1) > 0
  {
    if Wraps(ops, states, i + 1, j + 1) == 0 {
      var at := states[i + 1].frameCounter;
      RequestStarts(s, ops, states, i);
      FramesGrow(ops, i + 1, j);
      SpacedUntilWrap(s, ops, states, i + 1, j, at);
      RunKeepsState(s, ops, states, j);
      assert StepAt(ops, states, j) && Steady(ops[j]) && !WrapsAt(ops, states, j);
      SpacedUnlessWrap(states[j], ops[j], states[j + 1], at, Frames(ops, j) - Frames(ops, i + 1));
    }
  }

  // ----- requests in a window -----

  /** Requests among the operations from `lo` to before `hi`. */
  ghost function Count(ops: seq<Op>, states: seq<StylusState>, lo: nat, hi: nat): nat
    requires |states| == |ops| + 1 && lo <= hi <= |ops|
  {
    if lo == hi then 0 else Count(ops, states, lo, hi - 1) + if Requests(ops, states, hi - 1) then 1 else 0
  }

  /** Any two requests are at least 121 status frames apart. */
  ghost predicate Apart(ops: seq<Op>, states: seq<StylusState>)
    requires |states| == |ops| + 1
  {
    forall i: nat, j: nat :: i < j < |ops| && Requests(ops, states, i) && Requests(ops, states, j) ==>
      Frames(ops, j + 1) - Frames(ops, i + 1) >= SPACING
  }

  lemma CounterStep(s: StylusState, op: Op)
    requires StateOk(s)
    ensures Apply(s, op).0.frameCounter <= s.frameCounter + if op.FrameOp? then 1 else 0
  {
    if op.FrameOp? {
      DecidedKeeps(Confirmed(Watched(s.(frameCounter := Next(s.frameCounter))), op.w), op.w);
    }
  }

  /** The counter never runs ahead of the frames. */
  lemma {:induction false} CounterBehindFrames(s: StylusState, ops: seq<Op>, states: seq<StylusState>, n: nat)
    requires IsRun(s, ops, states) && StateOk(s) && n <= |ops|
    ensures states[n].frameCounter <= s.frameCounter + Frames(ops, n)
  {
    if n > 0 {
      CounterBehindFrames(s, ops, states, n - 1);
      RunKeepsState(s, ops, states, n - 1);
      assert StepAt(ops, states, n - 1);
      CounterStep(states[n - 1], ops[n - 1]);
    }
  }

  /** A session too short for the counter to wrap. */
  ghost predicate ShortSession(s: StylusState, ops: seq<Op>) { s.frameCounter + Frames(ops, |ops|) < WORD }

  /** In an undisturbed session that ends before the counter can wrap, all requests are 121 frames apart. */
  lemma ShortSessionApart(s: StylusState, ops: seq<Op>, states: seq<StylusState>)
    requires IsRun(s, ops, states) && StateOk(s) && AllSteady(ops) && ShortSession(s, ops)
    ensures Apart(ops, states)
  {
    forall i: nat, j: nat | i < j < |ops| && Requests(ops, states, i) && Requests(ops, states, j)
      ensures Frames(ops, j + 1) - Frames(ops, i + 1) >= SPACING
    {
      CounterBehindFrames(s, ops, states, i + 1);
      RunKeepsState(s, ops, states, i + 1);
      FramesGrow(ops, i + 1, j + 1);
      FramesGrow(ops, j + 1, |ops|);
      RequestsApart(s, ops, states, i, j);
    }
  }

  /** `last` is the last request before `hi`; the frames up to it make room for the requests but those that
      follow a wrap. */
  ghost predicate IsLastRequest(ops: seq<Op>, states: seq<StylusState>, lo: nat, hi: nat, last: nat)
    requires |states| == |ops| + 1 && lo <= hi <= |ops|
  {
    && lo <= last < hi && Requests(ops, states, last)
    && Frames(ops, last + 1) - Frames(ops, lo)
         >= SPACING * (Count(ops, states, lo, hi) - 1 - Wraps(ops, states, lo, last + 1)) + 1
  }

  /** One more request after the last one. */
  lemma NextRequest(s: StylusState, ops: seq<Op>, states: seq<StylusState>, lo: nat, before: nat, last: nat)
    requires IsRun(s, ops, states) && StateOk(s) && AllSteady(ops) && lo <= last < |ops|
    requires IsLastRequest(ops, states, lo, last, before) && Requests(ops, states, last)
    ensures IsLastRequest(ops, states, lo, last + 1, last)
  {
    ApartUnlessWrap(s, ops, states, before, last);
    FramesGrow(ops, before + 1, last + 1);
    WrapsSplit(ops, states, lo, before + 1, last + 1);
  }

  lemma {:induction false} LastRequest(s: StylusState, ops: seq<Op>, states: seq<StylusState>, lo: nat, hi: nat)
    returns (last: nat)
    requires IsRun(s, ops, states) && StateOk(s) && AllSteady(ops) && lo <= hi <= |ops|
    requires Count(ops, states, lo, hi) > 0
    ensures IsLastRequest(ops, states, lo, hi, last)
  {
    if !Requests(ops, states, hi - 1) {
      last := LastRequest(s, ops, states, lo, hi - 1);
    } else {
      last := hi - 1;
      RequestStarts(s, ops, states, last);
      FramesGrow(ops, lo, last);
      if Count(ops, states, lo, last) > 0 {
        var before := LastRequest(s, ops, states, lo, last);
        NextRequest(s, ops, states, lo, before, last);
      }
    }
  }

  /** In an undisturbed session any window of `k` status frames contains at most `k` / 121 requests, rounded up,
      and one more for every wrap of the counter in it. */
  lemma RequestRate(s: StylusState, ops: seq<Op>, states: seq<StylusState>, lo: nat, hi: nat)
    requires IsRun(s, ops, states) && StateOk(s) && AllSteady(ops) && lo <= hi <= |ops|
    ensures Count(ops, states, lo, hi)
         <= (Frames(ops, hi) - Frames(ops, lo) + SPACING - 1) / SPACING + Wraps(ops, states, lo, hi)
  {
    FramesGrow(ops, lo, hi);
    var k, c, w := Frames(ops, hi) - Frames(ops, lo), Count(ops, states, lo, hi), Wraps(ops, states, lo, hi);
    if c > 0 {
      var last := LastRequest(s, ops, states, lo, hi);
      FramesGrow(ops, last + 1, hi);
      WrapsSplit(ops, states, lo, last + 1, hi);
      RoundedUp(k, c - 1 - Wraps(ops, states, lo, last + 1));
    }
  }

  lemma RoundedUp(k: int, c: int)
    requires k >= SPACING * c + 1
    ensures c + 1 <= (k + SPACING - 1) / SPACING
  {
  }

  /** A session too short for the counter to wrap has no wrap. */
  lemma {:induction false} ShortSessionUnwrapped(s: StylusState, ops: seq<Op>, states: seq<StylusState>, lo: nat,
                                                 hi: nat)
    requires IsRun(s, ops, states) && StateOk(s) && ShortSession(s, ops) && lo <= hi <= |ops|
    ensures Wraps(ops, states, lo, hi) == 0
  {
    if lo < hi {
      ShortSessionUnwrapped(s, ops, states, lo, hi - 1);
      CounterBehindFrames(s, ops, states, hi - 1);
      FramesGrow(ops, hi, |ops|);
    }
  }

  /** So a session that ends before the counter can wrap keeps the plain rate. */
  lemma ShortSessionRate(s: StylusState, ops: seq<Op>, states: seq<StylusState>, lo: nat, hi: nat)
    requires IsRun(s, ops, states) && StateOk(s) && AllSteady(ops) && ShortSession(s, ops) && lo <= hi <= |ops|
    ensures Count(ops, states, lo, hi) <= (Frames(ops, hi) - Frames(ops, lo) + SPACING - 1) / SPACING
  {
    RequestRate(s, ops, states, lo, hi);
    ShortSessionUnwrapped(s, ops, states, lo, hi);
  }

  // ----- where the spacing ends -----

  /** A switch was requested on this very count. */
  ghost predicate JustRequested(s: StylusState) {
    StateOk(s) && Tracking(s) && s.switchReqPending && s.switchReqFrame == s.frameCounter
  }

  /** In every undisturbed session from here the next request comes 121 or more frames later. */
  ghost predicate NextRequestSpaced(s: StylusState) {
    forall ops: seq<Op>, states: seq<StylusState>, j: nat ::
      IsRun(s, ops, states) && AllSteady(ops) && j < |ops| && Requests(ops, states, j) ==> Frames(ops, j + 1) >= SPACING
  }

  const QUIET := Words(0, 0, 0, 0)

  /** Confirmation of the switch together with noise on the frequency switched to. */
  function DoneAndNoisy(target: int): Words { if target != 1 then Words(5001, 0, 1, 0) else Words(0, 5001, 1, 0) }

  lemma QuietFrame(s: StylusState)
    requires StateOk(s) && Tracking(s) && s.switchReqPending && s.frameCounter < WORD - 1
    requires s.switchReqFrame <= s.frameCounter < s.switchReqFrame + COOLDOWN_FRAMES
    ensures var s1 := Frame(s, QUIET).0;
      StateOk(s1) && Tracking(s1) && s1.switchReqPending && s1.switchReqFrame == s.switchReqFrame
        && s1.frameCounter == s.frameCounter + 1
  {
    FrameKeepsState(s, QUIET);
  }

  lemma ConfirmedAtZero(s: StylusState)
    requires StateOk(s) && Tracking(s) && s.switchReqPending && s.frameCounter == WORD - 1
    ensures Frame(s, DoneAndNoisy(s.switchTargetIdx)).1
  {
    var w := DoneAndNoisy(s.switchTargetIdx);
    var s1 := Confirmed(Watched(s.(frameCounter := Next(s.frameCounter))), w);
    assert s1.lastSwitchFrame == 0 && !s1.switchReqPending && s1.freqIdx == s.switchTargetIdx;
    assert !MismatchDue(s1, w) && MismatchWatched(s1, w) == s1;
  }

  /** A switch confirmed on count zero has no cooldown: the very same frame requests the next. */
  lemma {:induction false} WrapRun(s: StylusState) returns (ops: seq<Op>, states: seq<StylusState>)
    requires StateOk(s) && Tracking(s) && s.switchReqPending
    requires s.switchReqFrame <= s.frameCounter && s.switchReqFrame + COOLDOWN_FRAMES >= WORD
    ensures IsRun(s, ops, states) && AllSteady(ops) && |ops| == WORD - s.frameCounter
    ensures Requests(ops, states, |ops| - 1) && forall i :: 0 <= i < |ops| ==> ops[i].FrameOp?
    decreases WORD - s.frameCounter
  {
    if s.frameCounter == WORD - 1 {
      ConfirmedAtZero(s);
      ops := [FrameOp(DoneAndNoisy(s.switchTargetIdx))];
      states := [s, Apply(s, ops[0]).0];
      assert StepAt(ops, states, 0);
    } else {
      QuietFrame(s);
      var rest, after := WrapRun(Frame(s, QUIET).0);
      ops, states := [FrameOp(QUIET)] + rest, [s] + after;
      forall i: nat | i < |ops| ensures StepAt(ops, states, i) {
        if i > 0 { assert StepAt(rest, after, i - 1); }
      }
      assert Requests(rest, after, |rest| - 1);
    }
  }

  lemma {:induction false} AllFrames(ops: seq<Op>, n: nat)
    requires n <= |ops| && forall i :: 0 <= i < |ops| ==> ops[i].FrameOp?
    ensures Frames(ops, n) == n
  {
    if n > 0 { AllFrames(ops, n - 1); }
  }

  /** The distance to the next request is guaranteed exactly when the counter stays clear of the wrap for
      120 more frames. */
  lemma SpacedIffFarFromWrap(s: StylusState)
    requires JustRequested(s)
    ensures NextRequestSpaced(s) <==> s.frameCounter + COOLDOWN_FRAMES < WORD
  {
    if s.frameCounter + COOLDOWN_FRAMES < WORD {
      forall ops: seq<Op>, states: seq<StylusState>, j: nat | IsRun(s, ops, states) && AllSteady(ops) && j < |ops|
        && Requests(ops, states, j)
        ensures Frames(ops, j + 1) >= SPACING
      {
        assert Spaced(states[0], s.frameCounter, 0) && Frames(ops, 0) == 0;
        FramesGrow(ops, 0, j);
        SpacedFrom(s, ops, states, 0, j, s.frameCounter);
        RunKeepsState(s, ops, states, j);
        assert Steady(ops[j]);
        SpacedStep(states[j], ops[j], s.frameCounter, Frames(ops, j));
      }
    } else {
      var ops, states := WrapRun(s);
      AllFrames(ops, |ops|);
      var j := |ops| - 1;
      assert Requests(ops, states, j) && Frames(ops, j + 1) < SPACING;
    }
  }

  // ----- from power-up -----

  /** The state after power-up and initialisation. */
  const STARTED: StylusState := Initialised(NO_STYLUS)

  const NOISY := Words(5001, 0, 0, 0)

  lemma QuietStart(n: nat)
    requires n + 1 < WORD
    ensures Frame(STARTED.(frameCounter := n), QUIET) == (STARTED.(frameCounter := n + 1), false)
  {
  }

  lemma NoisyStart(n: nat)
    requires n + 1 < WORD
    ensures var (s, asked) := Frame(STARTED.(frameCounter := n), NOISY);
            asked && JustRequested(s) && s.frameCounter == n + 1
  {
  }

  /** Quiet frames and a noisy one lead from power-up to a request on any count. */
  lemma ReachRequest(c: nat) returns (ops: seq<Op>, states: seq<StylusState>)
    requires 1 <= c < WORD
    ensures IsRun(STARTED, ops, states) && AllSteady(ops) && |ops| == c && forall i :: 0 <= i < c ==> ops[i].FrameOp?
    ensures Requests(ops, states, c - 1) && JustRequested(states[c]) && states[c].frameCounter == c
  {
    ops := seq(c, i => FrameOp(if i < c - 1 then QUIET else NOISY));
    var last := Frame(STARTED.(frameCounter := c - 1), NOISY).0;
    states := seq(c + 1, i => if i < c then STARTED.(frameCounter := i) else last);
    NoisyStart(c - 1);
    forall i: nat | i < |ops| ensures StepAt(ops, states, i) {
      if i < c - 1 { QuietStart(i); }
    }
  }

  /** A request on the last count before the wrap, and the next one frame later. */
  lemma RequestsTogether() returns (ops: seq<Op>, states: seq<StylusState>)
    ensures IsRun(STARTED, ops, states) && AllSteady(ops) && |ops| == WORD == Frames(ops, |ops|) && !Apart(ops, states)
  {
    var before, reached := ReachRequest(WORD - 1);
    var s := reached[WORD - 1];
    ConfirmedAtZero(s);
    var op := FrameOp(DoneAndNoisy(s.switchTargetIdx));
    ops, states := before + [op], reached + [Apply(s, op).0];
    forall i: nat | i < |ops| ensures StepAt(ops, states, i) {
      if i < |before| { assert StepAt(before, reached, i); }
    }
    AllFrames(ops, |ops| - 1);
    AllFrames(ops, |ops|);
    assert Requests(before, reached, |before| - 1);
    assert Requests(ops, states, |ops| - 2) && Requests(ops, states, |ops| - 1);
  }

  /** All undisturbed sessions from power-up of at most `n` status frames keep their requests 121 frames apart
      exactly when `n` frames cannot make the counter wrap. */
  lemma SessionsApartIff(n: nat)
    ensures (forall ops: seq<Op>, states: seq<StylusState> ::
               IsRun(STARTED, ops, states) && AllSteady(ops) && Frames(ops, |ops|) <= n ==> Apart(ops, states))
       <==> n < WORD
  {
    if n < WORD {
      forall ops: seq<Op>, states: seq<StylusState> | IsRun(STARTED, ops, states) && AllSteady(ops)
        && Frames(ops, |ops|) <= n
        ensures Apart(ops, states)
      {
        ShortSessionApart(STARTED, ops, states);
      }
    } else {
      var ops, states := RequestsTogether();
    }
  }

  /** Clearing the pending request ends the spacing at once: one frame later the next request follows. */
  lemma ClearEndsSpacing() returns (ops: seq<Op>, states: seq<StylusState>)
    ensures IsRun(NO_STYLUS, ops, states) && |ops| == 4 && ops[2] == ClearOp(0x40, true)
    ensures Requests(ops, states, 1) && Requests(ops, states, 3) && Frames(ops, 4) - Frames(ops, 2) == 1
  {
    ops := [InitOp(true, true), FrameOp(Words(5001, 0, 0, 0)), ClearOp(0x40, true), FrameOp(Words(5001, 0, 0, 0))];
    var s1 := Apply(NO_STYLUS, ops[0]).0;
    var s2 := Apply(s1, ops[1]).0;
    var s3 := Apply(s2, ops[2]).0;
    states := [NO_STYLUS, s1, s2, s3, Apply(s3, ops[3]).0];
    assert StepAt(ops, states, 0) && StepAt(ops, states, 1) && StepAt(ops, states, 2) && StepAt(ops, states, 3);
  }
}
