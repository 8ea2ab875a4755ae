/** The tracker, any coordinate filter that leaves ids and states alone, and the gesture machine, in a row. */
module Pipeline {
  import opened EngineTypes
  import opened TrackerFrame
  import opened GestureLife
  import T = TrackerModel
  import L = TrackerLife
  import G = GestureModel

  /** A run of the chain: tracker states, input frames, tracker contacts, filtered contacts. */
  datatype Run = Run(states: seq<T.State>, frames: seq<T.Frame>, outs: seq<seq<Contact>>, mids: seq<seq<Contact>>)

  /** The filter between the two stages moves contacts and does nothing else. */
  ghost predicate Smoothed(out: seq<Contact>, mid: seq<Contact>) {
    |mid| == |out| && forall k :: 0 <= k < |out| ==> mid[k] == out[k].(x := mid[k].x, y := mid[k].y)
  }

  ghost predicate IsChainRun(tcfg: T.Config, r: Run) {
    && L.IsRun(tcfg, r.states, r.frames, r.outs)
    && |r.mids| == |r.outs|
    && forall n :: 0 <= n < |r.outs| ==> Smoothed(r.outs[n], r.mids[n])
  }

  /** The slot of `id` as frame `n` finds it, and what frame `n` brings for it. */
  function SlotBefore(gcfg: G.Config, r: Run, n: nat, id: int): G.Slot
    requires n <= |r.mids|
  {
    SlotAfter(gcfg, Inputs(r.mids, id)[..n])
  }

  // ----- sightings and inputs -----

  lemma FrameInput(tcfg: T.Config, r: Run, n: nat, id: int)
    requires tcfg.liftOffHoldFrames >= 0 && IsChainRun(tcfg, r) && n < |r.frames|
    ensures var i := Inputs(r.mids, id)[n];
      && (i.Absent? <==> Sighted(r.outs[n], id) == Silent)
      && (i.UpOnly? <==> Sighted(r.outs[n], id) == Lifted)
      && (i.Present? <==> Sighted(r.outs[n], id) == Seen)
    ensures forall i, j :: 0 <= i < j < |r.mids[n]| ==> r.mids[n][i].id != r.mids[n][j].id
  {
    L.RunReportsDistinctIds(tcfg, r.states, r.frames, r.outs, n);
  }

  // ----- tracker and slot stay in step -----

  /** An active slot's track was seen in the last frame; a slot waiting for release has counted exactly
      the frames its track is missing, if the track still exists. */
  ghost predicate InStep(slot: G.Slot, track: Option<int>) {
    match slot.phase
    case Idle => true
    case ReleasePending => track == None || track == Some(slot.missingFrames)
    case _ => track == Some(0)
  }

  lemma InStepKept(gcfg: G.Config, hold: nat, slot: G.Slot, before: Option<int>, i: Input, e: Sighting,
                   after: Option<int>)
    requires gcfg.Valid() && SlotOk(gcfg, slot) && InStep(slot, before)
    requires Fate(hold, before, e, after) || (e == Silent && after == None)
    requires (i.Absent? <==> e == Silent) && (i.UpOnly? <==> e == Lifted) && (i.Present? <==> e == Seen)
    ensures InStep(Next(gcfg, slot, i), after)
  {
  }

  lemma {:induction false} ChainInStep(tcfg: T.Config, gcfg: G.Config, r: Run, n: nat, id: int)
    requires tcfg.liftOffHoldFrames >= 0 && gcfg.Valid() && IsChainRun(tcfg, r) && n <= |r.frames|
    ensures SlotOk(gcfg, SlotBefore(gcfg, r, n, id))
    ensures InStep(SlotBefore(gcfg, r, n, id), Missing(r.states[n].tracks, id))
  {
    var ins := Inputs(r.mids, id);
    SlotAlwaysOk(gcfg, ins[..n]);
    if n > 0 {
      ChainInStep(tcfg, gcfg, r, n - 1, id);
      FrameFate(tcfg, r, n - 1, id);
      assert ins[..n][..n - 1] == ins[..n - 1];
      InStepKept(gcfg, tcfg.liftOffHoldFrames, SlotBefore(gcfg, r, n - 1, id), Missing(r.states[n - 1].tracks, id),
                 ins[n - 1], Sighted(r.outs[n - 1], id), Missing(r.states[n].tracks, id));
    }
  }

  lemma FrameFate(tcfg: T.Config, r: Run, n: nat, id: int)
    requires tcfg.liftOffHoldFrames >= 0 && IsChainRun(tcfg, r) && n < |r.frames|
    ensures var i, e := Inputs(r.mids, id)[n], Sighted(r.outs[n], id);
      && (i.Absent? <==> e == Silent) && (i.UpOnly? <==> e == Lifted) && (i.Present? <==> e == Seen)
      && (Fate(tcfg.liftOffHoldFrames, Missing(r.states[n].tracks, id), e, Missing(r.states[n + 1].tracks, id))
          || (e == Silent && Missing(r.states[n + 1].tracks, id) == None))
  {
    FrameInput(tcfg, r, n, id);
    L.RunKeepsState(tcfg, r.states, r.frames, r.outs, n);
    assert L.StepAt(tcfg, r.states, r.frames, r.outs, n);
    L.StepKeepsState(tcfg, r.states[n], r.frames[n], r.outs[n], r.states[n + 1], id);
  }

  // ----- what the chain promises -----

  /** In frame `n` a contact the tracker lifted finds its gesture slot idle. */
  ghost predicate UpFindsIdle(gcfg: G.Config, r: Run, n: nat, id: int)
    requires n < |r.mids|
  {
    InputFor(r.mids[n], id).UpOnly? ==> SlotBefore(gcfg, r, n, id).phase.Idle?
  }

  /** In frame `n` at most one event is reported for `id`. */
  ghost predicate OneReport(gcfg: G.Config, r: Run, n: nat, id: int)
    requires n < |r.mids|
  {
    |ReportsOf(G.Output(gcfg, SlotsAfter(gcfg, r.mids[..n]), r.mids[n]), id)| <= 1
  }

  lemma UpsFindIdleSlots(tcfg: T.Config, gcfg: G.Config, r: Run, n: nat, id: int)
    requires tcfg.liftOffHoldFrames > gcfg.releasePendingFrames && gcfg.Valid()
    requires IsChainRun(tcfg, r) && n < |r.frames|
    ensures UpFindsIdle(gcfg, r, n, id)
  {
    ChainInStep(tcfg, gcfg, r, n, id);
    FrameFate(tcfg, r, n, id);
    UpNeedsHold(tcfg, r, n, id);
  }

  /** A lift-off comes out only of a track missing for exactly the hold. */
  lemma UpNeedsHold(tcfg: T.Config, r: Run, n: nat, id: int)
    requires tcfg.liftOffHoldFrames >= 0 && IsChainRun(tcfg, r) && n < |r.frames|
    ensures Inputs(r.mids, id)[n].UpOnly? ==> Missing(r.states[n].tracks, id) == Some(tcfg.liftOffHoldFrames)
  {
    FrameFate(tcfg, r, n, id);
  }

  /** The report count of a frame, read off the slot. */
  lemma ReportsFromSlot(tcfg: T.Config, gcfg: G.Config, r: Run, n: nat, id: int)
    requires tcfg.liftOffHoldFrames >= 0 && gcfg.Valid() && IsChainRun(tcfg, r) && n < |r.frames|
    requires 1 <= id <= G.SLOTS
    ensures ReportsOf(G.Output(gcfg, SlotsAfter(gcfg, r.mids[..n]), r.mids[n]), id)
         == FrameReports(gcfg, SlotBefore(gcfg, r, n, id), Inputs(r.mids, id)[n])
  {
    forall k | 0 <= k < n
      ensures forall i, j :: 0 <= i < j < |r.mids[..n][k]| ==> r.mids[..n][k][i].id != r.mids[..n][k][j].id {
      FrameInput(tcfg, r, k, id);
    }
    FrameInput(tcfg, r, n, id);
    RunSplitsById(gcfg, r.mids[..n], id);
    assert Inputs(r.mids[..n], id) == Inputs(r.mids, id)[..n];
    FrameSplitsById(gcfg, SlotsAfter(gcfg, r.mids[..n]), r.mids[n], id);
  }

  /** What the chain reports for an id is the word of its slot. */
  lemma ChainWord(tcfg: T.Config, gcfg: G.Config, r: Run, id: int)
    requires tcfg.liftOffHoldFrames >= 0 && IsChainRun(tcfg, r) && 1 <= id <= G.SLOTS
    ensures RunReports(gcfg, r.mids, id) == Word(gcfg, Inputs(r.mids, id))
  {
    forall n | 0 <= n < |r.mids|
      ensures forall i, j :: 0 <= i < j < |r.mids[n]| ==> r.mids[n][i].id != r.mids[n][j].id {
      FrameInput(tcfg, r, n, id);
    }
    RunSplitsById(gcfg, r.mids, id);
  }

  /** With a hold no shorter than the grace, a lifted contact meets an idle slot or ends its grace. */
  lemma ChainUpIsSafe(tcfg: T.Config, gcfg: G.Config, r: Run, n: nat, id: int)
    requires tcfg.liftOffHoldFrames >= gcfg.releasePendingFrames
    requires gcfg.Valid() && IsChainRun(tcfg, r) && n < |r.frames|
    ensures SafeUp(gcfg, SlotBefore(gcfg, r, n, id), Inputs(r.mids, id)[n])
  {
    ChainInStep(tcfg, gcfg, r, n, id);
    UpNeedsHold(tcfg, r, n, id);
  }

  /** With one press frame and a hold no shorter than the grace, everything the chain ever reports for an
      id is a prefix of (Down+ Move* Up)*. */
  lemma ChainSpeaks(tcfg: T.Config, gcfg: G.Config, r: Run, id: int)
    requires gcfg.pressCandidateFrames == 1 && tcfg.liftOffHoldFrames >= gcfg.releasePendingFrames && gcfg.Valid()
    requires IsChainRun(tcfg, r) && 1 <= id <= G.SLOTS
    ensures WellFormed(RunReports(gcfg, r.mids, id))
  {
    var ins := Inputs(r.mids, id);
    forall n: nat | n < |ins| ensures SafeUp(gcfg, SlotAfter(gcfg, ins[..n]), ins[n]) {
      ChainUpIsSafe(tcfg, gcfg, r, n, id);
    }
    LanguageHolds(gcfg, ins);
    ChainWord(tcfg, gcfg, r, id);
  }

  /** Two reports in one frame need a lifted contact that meets a slot whose grace ends there and then. */
  lemma TwoReportsNeedUp(gcfg: G.Config, slot: G.Slot, i: Input)
    requires gcfg.Valid() && SlotOk(gcfg, slot)
    ensures |FrameReports(gcfg, slot, i)| <= 2
    ensures |FrameReports(gcfg, slot, i)| == 2 <==>
            && i.UpOnly?
            && (slot.phase in {G.Dragging, G.LongPressHold}
                || (slot.phase == G.PressCandidate && gcfg.releasePendingFrames == 0)
                || (slot.phase == G.ReleasePending && slot.missingFrames == gcfg.releasePendingFrames))
  {
  }

  lemma OneReportPerFrame(tcfg: T.Config, gcfg: G.Config, r: Run, n: nat, id: int)
    requires 0 < tcfg.liftOffHoldFrames != gcfg.releasePendingFrames && gcfg.Valid()
    requires IsChainRun(tcfg, r) && n < |r.frames| && 1 <= id <= G.SLOTS
    ensures OneReport(gcfg, r, n, id)
  {
    ChainInStep(tcfg, gcfg, r, n, id);
    UpNeedsHold(tcfg, r, n, id);
    ReportsFromSlot(tcfg, gcfg, r, n, id);
    TwoReportsNeedUp(gcfg, SlotBefore(gcfg, r, n, id), Inputs(r.mids, id)[n]);
  }
}
