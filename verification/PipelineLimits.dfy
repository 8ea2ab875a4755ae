/** Runs on which the tracker's lift-off and the gesture machine's own Up meet, for every configuration
    outside the safe ones: together with the chain's promises they give its exact conditions. */
module PipelineLimits {
  import opened EngineTypes
  import opened Matching
  import opened TrackerFrame
  import opened GestureLife
  import opened GestureLimits
  import opened Pipeline
  import T = TrackerModel
  import L = TrackerLife
  import G = GestureModel

  const NO_PEN := T.Pen(false, false, 0.0, 0.0, 0, 0, 0)

  /** A finger resting in the middle of the panel, strong enough to start a track. */
  function Finger(cfg: T.Config): Contact {
    BLANK.(x := 30.0, y := 20.0, signalSum := Max(0, cfg.touchDownRejectMinSignal))
  }

  function Aft(cfg: T.Config): T.Aft { T.AftContext(cfg, T.INIT, NO_PEN) }

  /** Contact and track after `n` frames of the resting finger. */
  function Resting(cfg: T.Config, n: nat): (Contact, T.Track)
    requires n >= 1
  {
    if n == 1 then T.Begin(cfg, Aft(cfg), 1, Finger(cfg))
    else T.Follow(cfg, Aft(cfg), Resting(cfg, n - 1).1, 0, Finger(cfg), false)
  }

  lemma {:induction false} RestingStill(cfg: T.Config, n: nat)
    requires n >= 1
    ensures var (o, t) := Resting(cfg, n);
      && o.id == 1 && o.state != StateUp && o.x == 30.0 && o.y == 20.0
      && t.id == 1 && t.x == 30.0 && t.y == 20.0 && t.vx == 0.0 && t.vy == 0.0 && t.missed == 0 && !t.upEventEmitted
  {
    if n > 1 { RestingStill(cfg, n - 1); }
  }

  /** The track after `k` frames without the finger. */
  function Left(cfg: T.Config, n: nat, k: nat): T.Track
    requires n >= 1
  {
    if k == 0 then Resting(cfg, n).1 else Waiting(cfg, Left(cfg, n, k - 1))
  }

  lemma {:induction false} LeftWaits(cfg: T.Config, n: nat, k: nat)
    requires n >= 1 && cfg.liftOffHoldFrames >= 0 && k <= cfg.liftOffHoldFrames + 1
    ensures var t := Left(cfg, n, k);
      && t.id == 1 && t.missed == k && (t.upEventEmitted <==> k == cfg.liftOffHoldFrames + 1)
      && t.x == 30.0 && t.y == 20.0 && t.vx == 0.0 && t.vy == 0.0
  {
    RestingStill(cfg, n);
    if k > 0 { LeftWaits(cfg, n, k - 1); }
  }

  function Stored(t: T.Track): T.State { T.State([t], 2, 1000000, 0.0, 0.0) }

  function StateAt(cfg: T.Config, n: nat, i: nat): T.State
    requires n >= 1
  {
    if i == 0 then T.INIT else if i <= n then Stored(Resting(cfg, i).1) else Stored(Left(cfg, n, i - n))
  }

  function OutAt(cfg: T.Config, n: nat, i: nat): seq<Contact>
    requires n >= 1
  {
    if i < n then [Resting(cfg, i + 1).0]
    else if T.Lifts(cfg, Left(cfg, n, i - n)) then [T.UpContact(T.Aged(cfg, Left(cfg, n, i - n)), 0)]
    else []
  }

  function FrameAt(cfg: T.Config, n: nat, i: nat): T.Frame { T.Frame(if i < n then [Finger(cfg)] else [], NO_PEN) }

  /** `n` frames of a resting finger, then as many without it as the hold needs. */
  function TapRun(cfg: T.Config, n: nat): (r: Run)
    requires n >= 1 && cfg.liftOffHoldFrames >= 0
    ensures |r.frames| == |r.outs| == |r.mids| == n + cfg.liftOffHoldFrames + 1 && |r.states| == |r.frames| + 1
  {
    var len := n + cfg.liftOffHoldFrames + 1;
    var outs := seq(len, i requires 0 <= i < len => OutAt(cfg, n, i));
    Run(seq(len + 1, i requires 0 <= i <= len => StateAt(cfg, n, i)),
        seq(len, i requires 0 <= i < len => FrameAt(cfg, n, i)), outs, outs)
  }

  lemma AdmittedFinger(cfg: T.Config, f: T.Frame)
    requires f.pen == NO_PEN && (f.contacts == [] || f.contacts == [Finger(cfg)])
    ensures T.Admitted(cfg, f) == f.contacts
  {
    var c := Finger(cfg);
    assert T.Surviving(cfg, NO_PEN, []) == [];
    assert [c][..0] == [] && !T.NearPen(cfg, NO_PEN, c);
    assert T.Surviving(cfg, NO_PEN, [c]) == T.Surviving(cfg, NO_PEN, [c][..0]) + [c];
  }

  /** The finger comes down. */
  lemma StepDown(cfg: T.Config, n: nat)
    requires n >= 1
    ensures T.Step(cfg, T.INIT, FrameAt(cfg, n, 0), OutAt(cfg, n, 0), StateAt(cfg, n, 1))
  {
    var f := FrameAt(cfg, n, 0);
    AdmittedFinger(cfg, f);
    var m, always := [-1], [false];
    assert T.Paired(cfg, [Finger(cfg)], [], m, always);
    assert IsMatching(m, 1, 0);
    var aft := Aft(cfg);
    var b0 := T.Build([], [], 1);
    assert T.Live(cfg, aft, [], [Finger(cfg)], m, always, 1, 0) == b0;
    assert T.FirstFree(1, T.Ids([]), T.Ids([]), 0) == 1 by { assert T.Candidate(1, 0) == 1; }
    var (o, t) := Resting(cfg, 1);
    assert T.Live(cfg, aft, [], [Finger(cfg)], m, always, 1, 1) == T.Build([o], [t], 2);
    assert T.Built(cfg, T.INIT, f, m, always) == T.Build([o], [t], 2);
  }

  lemma {:induction false} ZeroCostIsOptimal(cost: Matrix)
    requires |cost| == 1 && |cost[0]| == 1 && cost[0][0] == 0.0
    ensures IsOptimal(cost, [0])
  {
    assert [0][..0] == [];
    forall b: seq<int> | IsMatching(b, 1, 1)
      ensures Size(b) <= Size([0]) && (Size(b) == Size([0]) ==> Total(cost, [0]) <= Total(cost, b))
    {
      assert b[..0] == [];
      assert b == [0] || b == [-1];
    }
  }

  lemma PairedWithItself(cfg: T.Config, c: Contact, t: T.Track)
    requires T.Distance(cfg, c, t) == 0.0
    ensures T.Paired(cfg, [c], [t], [0], [false])
  {
    var cost := T.CostMatrix(cfg, [c], [t]);
    assert cost[0] == T.CostRow(cfg, c, [t]);
    if cfg.useHungarian {
      ZeroCostIsOptimal(cost);
    } else {
      assert T.NearestFree(cost[0], [0][..0], [0][0]);
      assert T.IsGreedy(cost, [0]);
    }
    assert !T.TooFar(cfg, c, t);
    assert T.Gated(cfg, [c], [t], [0], [0]);
    assert T.Rescued(cfg, [c], [t], [0], [0], [false]);
  }

  /** What the frame builds when the finger stands where a track waits for it. */
  lemma BuiltAgain(cfg: T.Config, t: T.Track, f: T.Frame)
    requires f == T.Frame([Finger(cfg)], NO_PEN) && T.Admitted(cfg, f) == f.contacts
    ensures var (o, t') := T.Follow(cfg, Aft(cfg), t, 0, Finger(cfg), false);
            T.Built(cfg, Stored(t), f, [0], [false]) == T.Build([o], [t'], 2)
  {
    var m, always, c := [0], [false], [Finger(cfg)];
    var (o, t') := T.Follow(cfg, Aft(cfg), t, 0, Finger(cfg), false);
    assert T.AftContext(cfg, Stored(t), NO_PEN) == Aft(cfg);
    assert T.Live(cfg, Aft(cfg), [t], c, m, always, 2, 0) == T.Build([], [], 2);
    var live := T.Build([o], [t'], 2);
    assert T.Live(cfg, Aft(cfg), [t], c, m, always, 2, 1) == live;
    assert T.Lift(cfg, [t], m, live, 0) == live && T.Lift(cfg, [t], m, live, 1) == live;
  }

  /** A finger that stands exactly on a stored track is matched to it, however long the track has been
      missing: even one that has lifted already comes back under its id. */
  lemma StepRevive(cfg: T.Config, t: T.Track)
    requires t.x == 30.0 && t.y == 20.0 && t.vx == 0.0 && t.vy == 0.0
    ensures var (o, t') := T.Follow(cfg, Aft(cfg), t, 0, Finger(cfg), false);
            T.Step(cfg, Stored(t), T.Frame([Finger(cfg)], NO_PEN), [o], Stored(t'))
  {
    var f := T.Frame([Finger(cfg)], NO_PEN);
    AdmittedFinger(cfg, f);
    assert T.Distance(cfg, Finger(cfg), t) == 0.0;
    PairedWithItself(cfg, Finger(cfg), t);
    BuiltAgain(cfg, t, f);
  }

  /** The finger stays. */
  lemma StepStay(cfg: T.Config, n: nat, i: nat)
    requires 1 <= i < n
    ensures T.Step(cfg, StateAt(cfg, n, i), FrameAt(cfg, n, i), OutAt(cfg, n, i), StateAt(cfg, n, i + 1))
  {
    RestingStill(cfg, i);
    StepRevive(cfg, Resting(cfg, i).1);
  }

  /** The finger is gone: its track waits, and lifts when the hold is over. */
  lemma StepGone(cfg: T.Config, n: nat, i: nat)
    requires n >= 1 && n <= i <= n + cfg.liftOffHoldFrames
    ensures T.Step(cfg, StateAt(cfg, n, i), FrameAt(cfg, n, i), OutAt(cfg, n, i), StateAt(cfg, n, i + 1))
  {
    var k := i - n;
    var s, f, t := StateAt(cfg, n, i), FrameAt(cfg, n, i), Left(cfg, n, k);
    LeftWaits(cfg, n, k);
    assert s == Stored(t);
    AdmittedFinger(cfg, f);
    var m: seq<int>, always: seq<bool> := [], [];
    assert T.Paired(cfg, [], [t], m, always);
    var live := T.Build([], [], 2);
    assert T.Live(cfg, T.AftContext(cfg, s, NO_PEN), [t], [], m, always, 2, 0) == live;
    assert T.Lift(cfg, [t], m, live, 0) == live;
    assert T.Lift(cfg, [t], m, live, 1) == T.LiftStep(cfg, t, 0, live);
    var b := T.Built(cfg, s, f, m, always);
    assert b.out == OutAt(cfg, n, i) && b.next == [Left(cfg, n, k + 1)] && b.seed == 2;
  }

  lemma TapStep(cfg: T.Config, n: nat, i: nat, s: T.State, f: T.Frame, out: seq<Contact>, s': T.State)
    requires n >= 1 && i <= n + cfg.liftOffHoldFrames
    requires s == StateAt(cfg, n, i) && f == FrameAt(cfg, n, i)
    requires out == OutAt(cfg, n, i) && s' == StateAt(cfg, n, i + 1)
    ensures T.Step(cfg, s, f, out, s')
  {
    if i == 0 { StepDown(cfg, n); } else if i < n { StepStay(cfg, n, i); } else { StepGone(cfg, n, i); }
  }

  lemma TapStepAt(cfg: T.Config, n: nat, i: nat)
    requires n >= 1 && cfg.liftOffHoldFrames >= 0 && i < |TapRun(cfg, n).frames|
    ensures var r := TapRun(cfg, n); L.StepAt(cfg, r.states, r.frames, r.outs, i)
  {
    var r := TapRun(cfg, n);
    TapStep(cfg, n, i, r.states[i], r.frames[i], r.outs[i], r.states[i + 1]);
  }

  lemma TapRunIsRun(cfg: T.Config, n: nat)
    requires n >= 1 && cfg.liftOffHoldFrames >= 0
    ensures IsChainRun(cfg, TapRun(cfg, n))
  {
    var r := TapRun(cfg, n);
    forall i: nat | i < |r.frames| ensures L.StepAt(cfg, r.states, r.frames, r.outs, i) {
      TapStepAt(cfg, n, i);
    }
  }

  /** The contact and the track when the finger returns right after the lift-off. */
  function Returned(cfg: T.Config): (Contact, T.Track)
    requires cfg.liftOffHoldFrames >= 0
  {
    T.Follow(cfg, Aft(cfg), Left(cfg, 1, cfg.liftOffHoldFrames + 1), 0, Finger(cfg), false)
  }

  /** A tap whose finger returns in the frame after the lift-off. */
  function ReturnRun(cfg: T.Config): (r: Run)
    requires cfg.liftOffHoldFrames >= 0
  {
    var (r, back) := (TapRun(cfg, 1), [Returned(cfg).0]);
    Run(r.states + [Stored(Returned(cfg).1)], r.frames + [T.Frame([Finger(cfg)], NO_PEN)], r.outs + [back],
      r.mids + [back])
  }

  lemma SameStep(cfg: T.Config, r: Run, r': Run, i: nat)
    requires |r.states| == |r.frames| + 1 && |r.outs| == |r.frames| && i < |r.frames|
    requires |r'.states| == |r'.frames| + 1 && |r'.outs| == |r'.frames| && i < |r'.frames|
    requires r.states[i] == r'.states[i] && r.frames[i] == r'.frames[i]
    requires r.outs[i] == r'.outs[i] && r.states[i + 1] == r'.states[i + 1]
    requires L.StepAt(cfg, r.states, r.frames, r.outs, i)
    ensures L.StepAt(cfg, r'.states, r'.frames, r'.outs, i)
  {
  }

  lemma StepIsStepAt(cfg: T.Config, r: Run, i: nat, s: T.State, f: T.Frame, out: seq<Contact>, s': T.State)
    requires |r.states| == |r.frames| + 1 && |r.outs| == |r.frames| && i < |r.frames|
    requires r.states[i] == s && r.frames[i] == f && r.outs[i] == out && r.states[i + 1] == s'
    requires T.Step(cfg, s, f, out, s')
    ensures L.StepAt(cfg, r.states, r.frames, r.outs, i)
  {
  }

  lemma ReturnStepAt(cfg: T.Config, i: nat)
    requires cfg.liftOffHoldFrames >= 0 && i < |ReturnRun(cfg).frames|
    ensures var r := ReturnRun(cfg); L.StepAt(cfg, r.states, r.frames, r.outs, i)
  {
    if i < |TapRun(cfg, 1).frames| { ReturnTapStep(cfg, i); } else { ReturnLastStep(cfg, i); }
  }

  lemma ReturnTapStep(cfg: T.Config, i: nat)
    requires cfg.liftOffHoldFrames >= 0 && i < |TapRun(cfg, 1).frames|
    ensures var r := ReturnRun(cfg); L.StepAt(cfg, r.states, r.frames, r.outs, i)
  {
    TapStepAt(cfg, 1, i);
    SameStep(cfg, TapRun(cfg, 1), ReturnRun(cfg), i);
  }

  lemma ReturnLastStep(cfg: T.Config, i: nat)
    requires cfg.liftOffHoldFrames >= 0 && i == |TapRun(cfg, 1).frames|
    ensures var r := ReturnRun(cfg); L.StepAt(cfg, r.states, r.frames, r.outs, i)
  {
    var t, f := Left(cfg, 1, cfg.liftOffHoldFrames + 1), T.Frame([Finger(cfg)], NO_PEN);
    ReturnEnds(cfg, i);
    ReturnStep(cfg, t, f, [Returned(cfg).0], Stored(Returned(cfg).1));
    StepIsStepAt(cfg, ReturnRun(cfg), i, Stored(t), f, [Returned(cfg).0], Stored(Returned(cfg).1));
  }

  lemma ReturnEnds(cfg: T.Config, i: nat)
    requires cfg.liftOffHoldFrames >= 0 && i == |TapRun(cfg, 1).frames|
    ensures var r := ReturnRun(cfg);
      && |r.frames| == |r.outs| == i + 1 && |r.states| == i + 2
      && r.states[i] == Stored(Left(cfg, 1, cfg.liftOffHoldFrames + 1)) && r.frames[i] == T.Frame([Finger(cfg)], NO_PEN)
      && r.outs[i] == [Returned(cfg).0] && r.states[i + 1] == Stored(Returned(cfg).1)
  {
  }

  lemma ReturnStep(cfg: T.Config, t: T.Track, f: T.Frame, out: seq<Contact>, s': T.State)
    requires cfg.liftOffHoldFrames >= 0 && t == Left(cfg, 1, cfg.liftOffHoldFrames + 1)
    requires f == T.Frame([Finger(cfg)], NO_PEN)
    requires out == [Returned(cfg).0] && s' == Stored(Returned(cfg).1)
    ensures T.Step(cfg, Stored(t), f, out, s')
  {
    LeftWaits(cfg, 1, cfg.liftOffHoldFrames + 1);
    StepRevive(cfg, t);
  }

  lemma ReturnRunIsRun(cfg: T.Config)
    requires cfg.liftOffHoldFrames >= 0
    ensures IsChainRun(cfg, ReturnRun(cfg))
  {
    var r := ReturnRun(cfg);
    forall i: nat | i < |r.frames| ensures L.StepAt(cfg, r.states, r.frames, r.outs, i) {
      ReturnStepAt(cfg, i);
    }
  }

  lemma SightedAlone(c: Contact)
    ensures Sighted([c], c.id) == if c.state == StateUp then Lifted else Seen
  {
    assert T.ContactIds([c])[0] == c.id;
  }

  /** The id of a lift-off may be reported live in the very next frame, as the old contact and not as a new one. */
  lemma LiftedIdReturns(cfg: T.Config)
    requires cfg.liftOffHoldFrames >= 0
    ensures var r, n := ReturnRun(cfg), 1 + cfg.liftOffHoldFrames;
      && IsChainRun(cfg, r) && |r.outs| == n + 2
      && Sighted(r.outs[n], 1) == Lifted && Sighted(r.outs[n + 1], 1) == Seen
      && forall c :: c in r.outs[n + 1] ==> LifeNew !in c.lifeFlags
  {
    ReturnRunIsRun(cfg);
    var t := Left(cfg, 1, cfg.liftOffHoldFrames);
    LeftWaits(cfg, 1, cfg.liftOffHoldFrames);
    LeftWaits(cfg, 1, cfg.liftOffHoldFrames + 1);
    SightedAlone(T.UpContact(T.Aged(cfg, t), 0));
    SightedAlone(Returned(cfg).0);
  }

  // ----- the same run in the gesture machine -----

  /** What the run brings for id 1. */
  lemma TapInputs(cfg: T.Config, n: nat, i: nat)
    requires n >= 1 && cfg.liftOffHoldFrames >= 0 && i < |TapRun(cfg, n).mids|
    ensures var x := InputFor(TapRun(cfg, n).mids[i], 1);
      && (i < n ==> x.Present? && x.c.x == 30.0 && x.c.y == 20.0)
      && (n <= i < n + cfg.liftOffHoldFrames ==> x.Absent?)
      && (i == n + cfg.liftOffHoldFrames ==> x.UpOnly?)
  {
    if i < n { RestingStill(cfg, i + 1); } else { LeftWaits(cfg, n, i - n); }
  }

  ghost predicate Still(i: Input) { i.Present? && i.c.x == 30.0 && i.c.y == 20.0 }

  /** A press candidate `i` frames old, or the long press it turned into. */
  ghost predicate RestingFor(gcfg: G.Config, s: G.Slot, i: nat) {
    && s.anchorX == 30.0 && s.anchorY == 20.0
    && (i == 1 || i < gcfg.longPressFrames ==> s.phase == G.PressCandidate && s.ageFrames == i)
    && (i == Max(2, gcfg.longPressFrames) ==> s.phase == G.LongPressHold)
  }

  lemma RestOnce(gcfg: G.Config, s: G.Slot, i: nat, x: Input)
    requires gcfg.Valid() && Still(x) && i < Max(2, gcfg.longPressFrames)
    requires if i == 0 then s == G.RESET else RestingFor(gcfg, s, i)
    ensures RestingFor(gcfg, Next(gcfg, s, x), i + 1)
  {
  }

  lemma SlotOfPrefix(gcfg: G.Config, ins: seq<Input>, i: nat)
    requires 1 <= i <= |ins|
    ensures SlotAfter(gcfg, ins[..i]) == Next(gcfg, SlotAfter(gcfg, ins[..i - 1]), ins[i - 1])
  {
    assert ins[..i][..i - 1] == ins[..i - 1];
  }

  /** The slot of a finger resting for `i` frames: a press, until the long press begins. */
  lemma {:induction false} RestingSlot(gcfg: G.Config, ins: seq<Input>, i: nat)
    requires gcfg.Valid() && 1 <= i <= |ins| && i <= Max(2, gcfg.longPressFrames)
    requires forall j :: 0 <= j < i ==> Still(ins[j])
    ensures RestingFor(gcfg, SlotAfter(gcfg, ins[..i]), i)
  {
    if i > 1 { RestingSlot(gcfg, ins, i - 1); }
    RestOnce(gcfg, SlotAfter(gcfg, ins[..i - 1]), i - 1, ins[i - 1]);
    SlotOfPrefix(gcfg, ins, i);
  }

  /** Missing frames after the finger left a press. */
  lemma WaitingSlot(gcfg: G.Config, ins: seq<Input>, k: nat)
    requires gcfg.Valid() && k < |ins| && k <= gcfg.releasePendingFrames
    requires Still(ins[0]) && forall j :: 1 <= j <= k ==> ins[j].Absent?
    ensures var s := SlotAfter(gcfg, ins[..1 + k]);
            if k == 0 then s.phase == G.PressCandidate else s.phase == G.ReleasePending && s.missingFrames == k
  {
    RestingSlot(gcfg, ins, 1);
    PressEndsAfterGrace(gcfg, ins[..1], k);
    assert ins[..1] + Nothing(k) == ins[..1 + k];
  }

  /** The slot when the tap's lift-off arrives, for a hold within the grace. */
  lemma TapWaits(tcfg: T.Config, gcfg: G.Config)
    requires 0 <= tcfg.liftOffHoldFrames <= gcfg.releasePendingFrames && gcfg.Valid()
    ensures var s, k := SlotBefore(gcfg, TapRun(tcfg, 1), 1 + tcfg.liftOffHoldFrames, 1), tcfg.liftOffHoldFrames;
            if k == 0 then s.phase == G.PressCandidate else s.phase == G.ReleasePending && s.missingFrames == k
  {
    var ins := Inputs(TapRun(tcfg, 1).mids, 1);
    forall j | 0 <= j <= tcfg.liftOffHoldFrames ensures if j == 0 then Still(ins[j]) else ins[j].Absent? {
      TapInputs(tcfg, 1, j);
    }
    WaitingSlot(gcfg, ins, tcfg.liftOffHoldFrames);
  }

  /** Hold within the grace: the tap's lift-off meets a slot that is still busy. */
  lemma BusySlot(tcfg: T.Config, gcfg: G.Config)
    requires 0 <= tcfg.liftOffHoldFrames <= gcfg.releasePendingFrames && gcfg.Valid()
    ensures var r := TapRun(tcfg, 1);
            IsChainRun(tcfg, r) && !UpFindsIdle(gcfg, r, 1 + tcfg.liftOffHoldFrames, 1)
  {
    TapRunIsRun(tcfg, 1);
    TapWaits(tcfg, gcfg);
    TapInputs(tcfg, 1, 1 + tcfg.liftOffHoldFrames);
  }

  /** Hold equal to the grace: a tap ends with a Move and an Up in one frame. */
  lemma TapReportsTwice(tcfg: T.Config, gcfg: G.Config)
    requires 0 <= tcfg.liftOffHoldFrames == gcfg.releasePendingFrames && gcfg.Valid()
    ensures var r := TapRun(tcfg, 1);
            IsChainRun(tcfg, r) && !OneReport(gcfg, r, 1 + tcfg.liftOffHoldFrames, 1)
  {
    var r, n := TapRun(tcfg, 1), 1 + tcfg.liftOffHoldFrames;
    TapRunIsRun(tcfg, 1);
    TapWaits(tcfg, gcfg);
    TapInputs(tcfg, 1, n);
    ReportsFromSlot(tcfg, gcfg, r, n, 1);
    ChainInStep(tcfg, gcfg, r, n, 1);
    TwoReportsNeedUp(gcfg, SlotBefore(gcfg, r, n, 1), Inputs(r.mids, 1)[n]);
  }

  /** No hold at all: a long press ends with a Move and an Up in one frame, whatever the grace. */
  lemma LongPressReportsTwice(tcfg: T.Config, gcfg: G.Config)
    requires tcfg.liftOffHoldFrames == 0 && gcfg.Valid()
    ensures var n := Max(2, gcfg.longPressFrames);
            var r := TapRun(tcfg, n);
            IsChainRun(tcfg, r) && !OneReport(gcfg, r, n, 1)
  {
    var n := Max(2, gcfg.longPressFrames);
    var r := TapRun(tcfg, n);
    TapRunIsRun(tcfg, n);
    var ins := Inputs(r.mids, 1);
    forall j | 0 <= j < n ensures Still(ins[j]) { TapInputs(tcfg, n, j); }
    RestingSlot(gcfg, ins, n);
    TapInputs(tcfg, n, n);
    ReportsFromSlot(tcfg, gcfg, r, n, 1);
    ChainInStep(tcfg, gcfg, r, n, 1);
    TwoReportsNeedUp(gcfg, SlotBefore(gcfg, r, n, 1), Inputs(r.mids, 1)[n]);
  }

  // ----- the language of the chain -----

  lemma ReturnInputs(cfg: T.Config, i: nat)
    requires cfg.liftOffHoldFrames >= 0 && i < |ReturnRun(cfg).mids|
    ensures var x := InputFor(ReturnRun(cfg).mids[i], 1);
      && (i == 0 || i == cfg.liftOffHoldFrames + 2 ==> x.Present?)
      && (1 <= i <= cfg.liftOffHoldFrames ==> x.Absent?)
      && (i == 1 + cfg.liftOffHoldFrames ==> x.UpOnly?)
  {
    if i < cfg.liftOffHoldFrames + 2 {
      TapInputs(cfg, 1, i);
      assert ReturnRun(cfg).mids[i] == TapRun(cfg, 1).mids[i];
    } else {
      LeftWaits(cfg, 1, cfg.liftOffHoldFrames + 1);
    }
  }

  /** A lifted contact on a press missing for `k` frames, inside the grace, is reported as a Move. */
  lemma LiftedOnWaiting(gcfg: G.Config, s: G.Slot, k: nat, t: G.Slot)
    requires gcfg.Valid() && s.phase == G.PressCandidate && MissingFor(gcfg, s, k, t) && k <= gcfg.releasePendingFrames
    ensures var r := FrameReports(gcfg, t, UpOnly);
      && |r| >= 1 && r[0].event == ReportMove && (k < gcfg.releasePendingFrames ==> |r| == 1)
    ensures k < gcfg.releasePendingFrames ==>
      Next(gcfg, t, UpOnly) == s.(prevPhase := G.PressCandidate, phase := G.ReleasePending, missingFrames := k + 1)
  {
  }

  /** One touch, and `k` frames without it inside the grace. */
  lemma TouchAndGone(gcfg: G.Config, ins: seq<Input>, k: nat) returns (s: G.Slot)
    requires gcfg.Valid() && k < |ins| && ins[0].Present? && forall j :: 1 <= j <= k ==> ins[j] == Absent
    ensures s == G.Press(G.RESET, ins[0].c)
    ensures Ending(gcfg, s, Word(gcfg, ins[..1]), k, SlotAfter(gcfg, ins[..1 + k]), Word(gcfg, ins[..1 + k]))
    ensures Word(gcfg, ins[..1])
         == if gcfg.pressCandidateFrames == 1 then [Report(ReportDown, ins[0].c.x, ins[0].c.y)] else []
  {
    var gone := ins[..1 + k];
    s := G.Press(G.RESET, ins[0].c);
    FirstTouch(gcfg, ins[0].c);
    assert ins[..1] == [Present(ins[0].c)] == gone[..1];
    EndingAfter(gcfg, gone, 1, s, Word(gcfg, ins[..1]));
  }

  /** A word that starts with anything but a Down, seen from any of its prefixes. */
  lemma BadStart(gcfg: G.Config, ins: seq<Input>, n: nat)
    requires n <= |ins| && |Word(gcfg, ins[..n])| > 0 && Word(gcfg, ins[..n])[0].event != ReportDown
    ensures !WellFormed(Word(gcfg, ins))
  {
    WordGrows(gcfg, ins, n);
  }

  /** With more than one press frame a tap reports something, and no Down before it. */
  lemma TapWithoutDown(tcfg: T.Config, gcfg: G.Config)
    requires tcfg.liftOffHoldFrames >= 0 && gcfg.Valid() && gcfg.pressCandidateFrames > 1
    ensures !WellFormed(Word(gcfg, Inputs(TapRun(tcfg, 1).mids, 1)))
  {
    var ins, hold := Inputs(TapRun(tcfg, 1).mids, 1), tcfg.liftOffHoldFrames;
    forall j | 0 <= j <= hold ensures if j == 0 then ins[j].Present? else ins[j] == Absent {
      TapInputs(tcfg, 1, j);
    }
    TapInputs(tcfg, 1, 1 + hold);
    if hold > gcfg.releasePendingFrames {
      GoneWithoutDown(gcfg, ins, hold);
    } else {
      LiftedWithoutDown(gcfg, ins, hold);
    }
  }

  /** The press times out first: the word starts with its Up. */
  lemma GoneWithoutDown(gcfg: G.Config, ins: seq<Input>, hold: nat)
    requires gcfg.Valid() && gcfg.pressCandidateFrames > 1 && gcfg.releasePendingFrames < hold < |ins|
    requires ins[0].Present? && forall j :: 1 <= j <= hold ==> ins[j] == Absent
    ensures !WellFormed(Word(gcfg, ins))
  {
    var k := gcfg.releasePendingFrames + 1;
    var s := TouchAndGone(gcfg, ins, k);
    BadStart(gcfg, ins, 1 + k);
  }

  /** The lifted contact comes first: the word starts with a Move. */
  lemma LiftedWithoutDown(gcfg: G.Config, ins: seq<Input>, hold: nat)
    requires gcfg.Valid() && gcfg.pressCandidateFrames > 1 && hold <= gcfg.releasePendingFrames && |ins| == hold + 2
    requires ins[0].Present? && ins[hold + 1] == UpOnly && forall j :: 1 <= j <= hold ==> ins[j] == Absent
    ensures !WellFormed(Word(gcfg, ins))
  {
    var before := ins[..1 + hold];
    var s := TouchAndGone(gcfg, ins, hold);
    LiftedOnWaiting(gcfg, s, hold, SlotAfter(gcfg, before));
    MoveFirst(gcfg, ins, SlotAfter(gcfg, before));
  }

  lemma MoveFirst(gcfg: G.Config, ins: seq<Input>, s: G.Slot)
    requires |ins| > 0 && Word(gcfg, ins[..|ins| - 1]) == [] && SlotAfter(gcfg, ins[..|ins| - 1]) == s
    requires var r := FrameReports(gcfg, s, ins[|ins| - 1]); |r| >= 1 && r[0].event == ReportMove
    ensures !WellFormed(Word(gcfg, ins))
  {
    assert Word(gcfg, ins) == FrameReports(gcfg, s, ins[|ins| - 1]);
  }

  /** With one press frame and a hold shorter than the grace, a tap whose finger returns reports Down, Move, Down. */
  lemma ReturnSaysDownTwice(tcfg: T.Config, gcfg: G.Config)
    requires 0 <= tcfg.liftOffHoldFrames < gcfg.releasePendingFrames && gcfg.Valid() && gcfg.pressCandidateFrames == 1
    ensures !WellFormed(Word(gcfg, Inputs(ReturnRun(tcfg).mids, 1)))
  {
    var ins, hold := Inputs(ReturnRun(tcfg).mids, 1), tcfg.liftOffHoldFrames;
    forall j | 0 <= j <= hold + 2
      ensures if j == 0 || j == hold + 2 then ins[j].Present? else if j <= hold then ins[j] == Absent
              else ins[j] == UpOnly
    {
      ReturnInputs(tcfg, j);
    }
    assert ins == ins[..2 + hold] + [Present(ins[hold + 2].c)];
    DownTwice(gcfg, ins[..2 + hold], hold, ins[hold + 2].c);
  }

  lemma DownTwice(gcfg: G.Config, ins: seq<Input>, hold: nat, c: Contact)
    requires gcfg.Valid() && gcfg.pressCandidateFrames == 1 && hold < gcfg.releasePendingFrames && |ins| == hold + 2
    requires ins[0].Present? && ins[hold + 1] == UpOnly && forall j :: 1 <= j <= hold ==> ins[j] == Absent
    ensures !WellFormed(Word(gcfg, ins + [Present(c)]))
  {
    LiftedThenWaits(gcfg, ins, hold);
    DownAfterMove(gcfg, ins, SlotAfter(gcfg, ins), Word(gcfg, ins), c);
  }

  /** A lifted contact inside the grace: the last report is a Move, and the press still waits. */
  lemma LiftedThenWaits(gcfg: G.Config, ins: seq<Input>, hold: nat)
    requires gcfg.Valid() && gcfg.pressCandidateFrames == 1 && hold < gcfg.releasePendingFrames && |ins| == hold + 2
    requires ins[0].Present? && ins[hold + 1] == UpOnly && forall j :: 1 <= j <= hold ==> ins[j] == Absent
    ensures var s := SlotAfter(gcfg, ins);
            s.phase == G.ReleasePending && s.prevPhase == G.PressCandidate && s.stableFrames == 1
    ensures LastEvent(Word(gcfg, ins)) == ReportMove
  {
    var s := TouchAndGone(gcfg, ins, hold);
    LiftedOnWaiting(gcfg, s, hold, SlotAfter(gcfg, ins[..1 + hold]));
  }

  // ----- exact conditions -----

  ghost predicate AlwaysSpeaks(tcfg: T.Config, gcfg: G.Config) {
    forall r: Run, id: int :: IsChainRun(tcfg, r) && 1 <= id <= G.SLOTS ==> WellFormed(RunReports(gcfg, r.mids, id))
  }

  /** On all runs of the chain the reports of every id follow (Down+ Move* Up)* exactly when one frame presses
      and the tracker holds a lift-off at least as long as the machine's grace. */
  lemma ChainLanguageIff(tcfg: T.Config, gcfg: G.Config)
    requires tcfg.liftOffHoldFrames >= 0 && gcfg.Valid()
    ensures AlwaysSpeaks(tcfg, gcfg)
       <==> gcfg.pressCandidateFrames == 1 && tcfg.liftOffHoldFrames >= gcfg.releasePendingFrames
  {
    if gcfg.pressCandidateFrames > 1 {
      TapRunIsRun(tcfg, 1);
      ChainWord(tcfg, gcfg, TapRun(tcfg, 1), 1);
      TapWithoutDown(tcfg, gcfg);
    } else if tcfg.liftOffHoldFrames < gcfg.releasePendingFrames {
      ReturnRunIsRun(tcfg);
      ChainWord(tcfg, gcfg, ReturnRun(tcfg), 1);
      ReturnSaysDownTwice(tcfg, gcfg);
    } else {
      forall r: Run, id: int | IsChainRun(tcfg, r) && 1 <= id <= G.SLOTS
        ensures WellFormed(RunReports(gcfg, r.mids, id)) {
        ChainSpeaks(tcfg, gcfg, r, id);
      }
    }
  }

  ghost predicate UpsAlwaysFindIdle(tcfg: T.Config, gcfg: G.Config) {
    forall r: Run, n: nat, id: int :: IsChainRun(tcfg, r) && n < |r.mids| ==> UpFindsIdle(gcfg, r, n, id)
  }

  ghost predicate AlwaysOneReport(tcfg: T.Config, gcfg: G.Config) {
    forall r: Run, n: nat, id: int :: IsChainRun(tcfg, r) && n < |r.mids| && 1 <= id <= G.SLOTS ==>
      OneReport(gcfg, r, n, id)
  }

  /** Lifted contacts only ever reach idle slots exactly when the tracker holds longer than the grace. */
  lemma UpsFindIdleIff(tcfg: T.Config, gcfg: G.Config)
    requires tcfg.liftOffHoldFrames >= 0 && gcfg.Valid()
    ensures UpsAlwaysFindIdle(tcfg, gcfg) <==> tcfg.liftOffHoldFrames > gcfg.releasePendingFrames
  {
    if tcfg.liftOffHoldFrames > gcfg.releasePendingFrames {
      forall r: Run, n: nat, id: int | IsChainRun(tcfg, r) && n < |r.mids| ensures UpFindsIdle(gcfg, r, n, id) {
        UpsFindIdleSlots(tcfg, gcfg, r, n, id);
      }
    } else {
      BusySlot(tcfg, gcfg);
    }
  }

  /** Every frame reports at most one event per id exactly when there is a hold and it differs from the grace. */
  lemma OneReportIff(tcfg: T.Config, gcfg: G.Config)
    requires tcfg.liftOffHoldFrames >= 0 && gcfg.Valid()
    ensures AlwaysOneReport(tcfg, gcfg) <==> 0 < tcfg.liftOffHoldFrames != gcfg.releasePendingFrames
  {
    if 0 < tcfg.liftOffHoldFrames != gcfg.releasePendingFrames {
      forall r: Run, n: nat, id: int | IsChainRun(tcfg, r) && n < |r.mids| && 1 <= id <= G.SLOTS
        ensures OneReport(gcfg, r, n, id)
      {
        OneReportPerFrame(tcfg, gcfg, r, n, id);
      }
    } else if tcfg.liftOffHoldFrames == 0 {
      LongPressReportsTwice(tcfg, gcfg);
    } else {
      TapReportsTwice(tcfg, gcfg);
    }
  }
}
