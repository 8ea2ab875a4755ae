/** When a status frame requests a frequency switch and to which frequency, read off the fields, and what becomes of a
    request over a run. */
module AfeChoice {
  import opened Afe
  import opened AfeLife

  // ----- one frame -----

  /** Frames from `b` to `a` on a 32-bit counter. */
  ghost function Since(a: int, b: int): int { (a - b) % 0x1_0000_0000 }

  /** The counter in the next frame. */
  ghost function Now(s: StylusState): int { (s.frameCounter + 1) % 0x1_0000_0000 }

  /** The chip reports a requested switch as done. */
  ghost predicate Done(s: StylusState, w: Words) { s.switchReqPending && w.freqDone != 0 }

  /** A request is still open, or the last switch (perhaps of this very frame) was less than 120 frames ago. */
  ghost predicate Waits(s: StylusState, w: Words) {
    var last := if Done(s, w) then Now(s) else s.lastSwitchFrame;
    (s.switchReqPending && w.freqDone == 0) || (last != 0 && Since(Now(s), last) < 120)
  }

  /** A pen heard of within 7200 frames and the panel are known to be on different frequencies. */
  ghost predicate Differ(s: StylusState, w: Words) {
    && s.btActive && Since(Now(s), s.btLastSeenFrame) <= 7200
    && w.tpFreq1 != 0 && s.btFreq1 != 0 && w.tpFreq1 != s.btFreq1
  }

  /** They are, and a difference has been on record for more than four frames. */
  ghost predicate Overdue(s: StylusState, w: Words) {
    Differ(s, w) && s.btMismatchActive && !Done(s, w) && Since(Now(s), s.btMismatchFrame) > 4
  }

  /** The frequency in use once the frame has taken note of a finished switch. */
  ghost function InUse(s: StylusState, w: Words): int { if Done(s, w) then s.switchTargetIdx else s.freqIdx }

  ghost predicate Words32(s: StylusState) {
    && 0 <= s.frameCounter < WORD && 0 <= s.switchReqFrame < WORD && 0 <= s.lastSwitchFrame < WORD
    && 0 <= s.btLastSeenFrame < WORD && 0 <= s.btMismatchFrame < WORD
  }

  lemma AgesAgree(s: StylusState, a: int)
    requires Words32(s) && 0 <= a < WORD
    ensures Next(s.frameCounter) == Now(s) && 0 <= Now(s) < WORD && Ago(Now(s), a) == Since(Now(s), a)
  {
    WordArithmetic(s.frameCounter, a);
    WordArithmetic(Now(s), a);
  }

  /** The state on which the frame decides. */
  lemma Deciding(s: StylusState, w: Words, s1: StylusState)
    requires Words32(s) && s1 == Confirmed(Watched(s.(frameCounter := Next(s.frameCounter))), w)
    ensures s1.frameCounter == Now(s) && s1.freqIdx == InUse(s, w) && s1.btFreq1 == s.btFreq1
    ensures s1.freq1Cmd == s.freq1Cmd && s1.switchTargetIdx == s.switchTargetIdx
    ensures s1.switchReqFrame == s.switchReqFrame
    ensures s1.switchReqPending <==> s.switchReqPending && w.freqDone == 0
    ensures Waits(s, w) <==> s1.switchReqPending || Cooling(s1)
    ensures MismatchDue(s1, w) <==> Overdue(s, w)
    ensures s1.btMismatchActive <==> s.btMismatchActive && !Done(s, w)
    ensures s1.btMismatchFrame == s.btMismatchFrame
    ensures s1.btActive <==> s.btActive && Since(Now(s), s.btLastSeenFrame) <= 7200
  {
    AgesAgree(s, s.btLastSeenFrame);
    AgesAgree(s, s.btMismatchFrame);
    AgesAgree(s, s.lastSwitchFrame);
    AgesAgree(s, Now(s));
  }

  /** A frame requests a switch exactly when nothing keeps it waiting and either a difference of frequencies is
      overdue or the frequency in use is noisier than the other by more than 5000. The request goes to the pen's
      frequency for a difference, and otherwise to the quieter one. */
  lemma RequestIff(s: StylusState, w: Words)
    requires Words32(s) && s.freqIdx in {0, 1} && s.switchTargetIdx in {0, 1}
    ensures Frame(s, w).1 <==>
      && s.connected && s.switchPolicy >= 2 && !Waits(s, w)
      && (Overdue(s, w) || (InUse(s, w) == 0 && w.f0Noise > w.f1Noise + 5000)
          || (InUse(s, w) == 1 && w.f1Noise > w.f0Noise + 5000))
    ensures Frame(s, w).1 ==> Frame(s, w).0.switchReqPending && Frame(s, w).0.switchReqFrame == Now(s)
    ensures Frame(s, w).1 && Overdue(s, w) ==> (Frame(s, w).0.switchTargetIdx == 1 <==> s.btFreq1 == s.freq1Cmd)
    ensures Frame(s, w).1 && !Overdue(s, w) ==> (Frame(s, w).0.switchTargetIdx == 1 <==> w.f1Noise < w.f0Noise)
    ensures Frame(s, w).1 ==> Frame(s, w).0.switchTargetIdx in {0, 1}
    ensures Frame(s, w).1 && !Overdue(s, w) ==> Frame(s, w).0.switchTargetIdx != InUse(s, w)
  {
    Deciding(s, w, Confirmed(Watched(s.(frameCounter := Next(s.frameCounter))), w));
  }

  /** What a frame of a tracked pen does beside a request: the counter moves, a silent pen loses its pressure after 120
      frames and counts as gone after 7200, a finished switch takes effect, an unfinished one is given up after 360. */
  lemma FrameFields(s: StylusState, w: Words)
    requires Words32(s) && s.connected && s.switchPolicy >= 2
    ensures var t := Frame(s, w).0;
      && t.frameCounter == Now(s) && t.freqIdx == InUse(s, w)
      && (t.btPressureCleared <==> s.btPressureCleared || (s.btActive && Since(Now(s), s.btLastSeenFrame) > 120))
      && (t.btActive <==> s.btActive && Since(Now(s), s.btLastSeenFrame) <= 7200)
      && t.lastSwitchFrame == (
           if Done(s, w) || (s.switchReqPending && Since(Now(s), s.switchReqFrame) > 360) then Now(s)
           else s.lastSwitchFrame)
      && (!Frame(s, w).1 ==>
            (t.switchReqPending <==>
               s.switchReqPending && w.freqDone == 0 && Since(Now(s), s.switchReqFrame) <= 360))
  {
    AgesAgree(s, s.switchReqFrame);
    AgesAgree(s, s.btLastSeenFrame);
    Deciding(s, w, Confirmed(Watched(s.(frameCounter := Next(s.frameCounter))), w));
  }

  /** What a frame that requests nothing leaves on record: a finished switch clears it; otherwise, when the frame does
      not wait, equal frequencies clear it and different ones start it unless it has started. */
  lemma RecordFields(s: StylusState, w: Words)
    requires Words32(s) && s.connected && s.switchPolicy >= 2 && !Overdue(s, w)
    ensures var t := Frame(s, w).0;
      if Waits(s, w) then
        && (t.btMismatchActive <==> s.btMismatchActive && !Done(s, w)) && t.btMismatchFrame == s.btMismatchFrame
      else if Differ(s, w) then
        && t.btMismatchActive
        && t.btMismatchFrame == if s.btMismatchActive && !Done(s, w) then s.btMismatchFrame else Now(s)
      else
        && t.btMismatchFrame == s.btMismatchFrame
        && (t.btMismatchActive ==> s.btMismatchActive && !Done(s, w))
        && (s.btActive && Since(Now(s), s.btLastSeenFrame) <= 7200 && w.tpFreq1 == s.btFreq1 != 0 ==>
              !t.btMismatchActive)
  {
    Deciding(s, w, Confirmed(Watched(s.(frameCounter := Next(s.frameCounter))), w));
  }

  // ----- the request over a run -----

  lemma FrameKeepsWords(s: StylusState, w: Words)
    requires Words32(s)
    ensures Words32(Frame(s, w).0)
  {
    if Tracking(s) {
      AgesAgree(s, 0);
      assert Words32(Confirmed(Watched(s.(frameCounter := Next(s.frameCounter))), w));
    }
  }

  lemma ApplyKeepsWords(s: StylusState, op: Op)
    requires Words32(s)
    ensures Words32(Apply(s, op).0)
  {
    if op.FrameOp? { FrameKeepsWords(s, op.w); }
  }

  lemma {:induction false} RunKeepsWords(s: StylusState, ops: seq<Op>, states: seq<StylusState>, n: nat)
    requires IsRun(s, ops, states) && Words32(s) && n <= |ops|
    ensures Words32(states[n])
  {
    for k := 0 to n
      invariant Words32(states[k])
    {
      assert StepAt(ops, states, k);
      ApplyKeepsWords(states[k], ops[k]);
    }
  }

  /** While its request is open and not reported done, an undisturbed pen keeps the target. */
  lemma PendingKeepsTarget(s: StylusState, op: Op)
    requires Steady(op) && Tracking(s) && s.switchReqPending && (op.FrameOp? ==> op.w.freqDone == 0)
    ensures Tracking(Apply(s, op).0) && Apply(s, op).0.switchTargetIdx == s.switchTargetIdx
  {
  }

  lemma DoneTakesTarget(s: StylusState, w: Words)
    requires Tracking(s) && s.switchReqPending && w.freqDone != 0
    ensures Frame(s, w).0.freqIdx == s.switchTargetIdx
  {
    DecidedKeeps(Confirmed(Watched(s.(frameCounter := Next(s.frameCounter))), w), w);
  }

  /** The request of operation `i` is open from there up to operation `k`, which reports it done. */
  ghost predicate DoneAt(ops: seq<Op>, states: seq<StylusState>, i: nat, k: nat)
    requires |states| == |ops| + 1
  {
    && i < k < |ops| && ops[k].FrameOp? && ops[k].w.freqDone != 0
    && (forall j :: i < j <= k ==> states[j].switchReqPending)
    && forall j :: i < j < k && ops[j].FrameOp? ==> ops[j].w.freqDone == 0
  }

  /** A request that is reported done is what the panel switches to. */
  lemma {:induction false} DoneSwitches(s: StylusState, ops: seq<Op>, states: seq<StylusState>, i: nat, k: nat)
    requires IsRun(s, ops, states) && AllSteady(ops) && DoneAt(ops, states, i, k)
    requires ops[i].FrameOp? && Requests(ops, states, i)
    ensures states[k + 1].freqIdx == states[i + 1].switchTargetIdx
  {
    assert StepAt(ops, states, i);
    for j := i + 1 to k
      invariant Tracking(states[j]) && states[j].switchTargetIdx == states[i + 1].switchTargetIdx
    {
      assert StepAt(ops, states, j) && Steady(ops[j]);
      PendingKeepsTarget(states[j], ops[j]);
    }
    assert StepAt(ops, states, k);
    DoneTakesTarget(states[k], ops[k].w);
  }

  /** The command of the frequency in use. */
  ghost function Command(s: StylusState, idx: int): int { if idx == 1 then s.freq1Cmd else s.freq0Cmd }

  /** A pen the panel was off from is followed: after the switch the panel is on the pen's frequency. */
  lemma PenIsFollowed(s: StylusState, ops: seq<Op>, states: seq<StylusState>, i: nat, k: nat)
    requires IsRun(s, ops, states) && AllSteady(ops) && DoneAt(ops, states, i, k)
    requires ops[i].FrameOp? && Requests(ops, states, i) && Words32(s) && StateOk(s)
    requires ops[i].w.f0Noise <= ops[i].w.f1Noise + 5000 && ops[i].w.f1Noise <= ops[i].w.f0Noise + 5000
    ensures Overdue(states[i], ops[i].w)
    ensures states[k + 1].freqIdx == if states[i].btFreq1 == states[i].freq1Cmd then 1 else 0
    ensures states[i].btFreq1 in {states[i].freq0Cmd, states[i].freq1Cmd} ==>
      Command(states[i], states[k + 1].freqIdx) == states[i].btFreq1
  {
    RunKeepsWords(s, ops, states, i);
    RunKeepsState(s, ops, states, i);
    RequestIff(states[i], ops[i].w);
    assert StepAt(ops, states, i);
    DoneSwitches(s, ops, states, i, k);
  }

  // ----- how a difference comes on record -----

  /** Pen and panel are seen on one frequency by a frame that does not wait. */
  ghost predicate Agree(s: StylusState, op: Op) {
    && op.FrameOp? && Tracking(s) && !Waits(s, op.w)
    && s.btActive && Since(Now(s), s.btLastSeenFrame) <= 7200 && op.w.tpFreq1 == s.btFreq1 && s.btFreq1 != 0
  }

  /** The difference on record before operation `k` was seen by operation `i`, and no operation since saw them agree. */
  ghost predicate OnRecordSince(ops: seq<Op>, states: seq<StylusState>, i: nat, k: nat)
    requires |states| == |ops| + 1 && k <= |ops|
  {
    && i < k && ops[i].FrameOp? && Differ(states[i], ops[i].w) && Now(states[i]) == states[k].btMismatchFrame
    && forall j :: i < j < k ==> !Agree(states[j], ops[j])
  }

  /** What an operation does to the record. */
  lemma RecordStep(s: StylusState, op: Op)
    requires Words32(s) && Apply(s, op).0.btMismatchActive
    ensures (op.FrameOp? && Differ(s, op.w) && Apply(s, op).0.btMismatchFrame == Now(s))
         || (s.btMismatchActive && Apply(s, op).0.btMismatchFrame == s.btMismatchFrame && !Agree(s, op))
  {
    if op.FrameOp? && Tracking(s) {
      if Overdue(s, op.w) { OverdueClears(s, op.w); } else { RecordFields(s, op.w); }
    }
  }

  lemma OverdueClears(s: StylusState, w: Words)
    requires Words32(s) && Tracking(s) && Overdue(s, w)
    ensures !Waits(s, w) ==> !Frame(s, w).0.btMismatchActive
    ensures Waits(s, w) ==>
      Frame(s, w).0.btMismatchActive == s.btMismatchActive && Frame(s, w).0.btMismatchFrame == s.btMismatchFrame
  {
    Deciding(s, w, Confirmed(Watched(s.(frameCounter := Next(s.frameCounter))), w));
  }

  /** So a request for a difference rests on one seen more than four counts before and never contradicted since. */
  lemma {:induction false} RecordBegan(s: StylusState, ops: seq<Op>, states: seq<StylusState>, k: nat) returns (i: nat)
    requires IsRun(s, ops, states) && Words32(s) && !s.btMismatchActive && k <= |ops| && states[k].btMismatchActive
    ensures OnRecordSince(ops, states, i, k)
    decreases k
  {
    assert k > 0;
    var n := k - 1;
    RunKeepsWords(s, ops, states, n);
    assert StepAt(ops, states, n);
    RecordStep(states[n], ops[n]);
    if ops[n].FrameOp? && Differ(states[n], ops[n].w) && states[k].btMismatchFrame == Now(states[n]) {
      i := n;
    } else {
      i := RecordBegan(s, ops, states, n);
    }
  }

  // ----- where the words come from -----

  /** The status words are four little-endian pairs of bytes of the frame. */
  lemma StatusBytes(buffer: seq<int>)
    requires IsBuffer(buffer)
    ensures var w := StatusWords(buffer);
      && w.f0Noise == buffer[4835] + 256 * buffer[4836] && w.f1Noise == buffer[4839] + 256 * buffer[4840]
      && w.freqDone == buffer[4811] + 256 * buffer[4812] && w.tpFreq1 == buffer[4823] + 256 * buffer[4824]
  {
  }

  /** Pens 0 to 3 have consecutive pairs of commands, every other pen has those of pen 0. */
  lemma PairsOfPens(penId: int)
    ensures var p := if 0 <= penId <= 3 then penId else 0; FreqPair(penId) == (0xA1 + p, 0x18 + p)
  {
  }

  // ----- what the pen said last -----

  lemma DecidedKeepsPen(s: StylusState, w: Words)
    ensures var t := Decided(s, w).0;
      && t.btFreq1 == s.btFreq1 && t.btFreq2 == s.btFreq2 && t.btLastSeenFrame == s.btLastSeenFrame
      && t.connected == s.connected
  {
  }

  lemma FrameKeepsPen(s: StylusState, w: Words)
    ensures var t := Frame(s, w).0;
      && t.btFreq1 == s.btFreq1 && t.btFreq2 == s.btFreq2 && t.btLastSeenFrame == s.btLastSeenFrame
      && t.connected == s.connected
  {
    if Tracking(s) { DecidedKeepsPen(Confirmed(Watched(s.(frameCounter := Next(s.frameCounter))), w), w); }
  }

  /** The pen's frequencies are those of its last heartbeat, and it was last heard of then. */
  lemma {:induction false} HeardLast(s: StylusState, ops: seq<Op>, states: seq<StylusState>, j: nat, k: nat)
    requires IsRun(s, ops, states) && AllSteady(ops) && j < k <= |ops|
    requires ops[j].HeartbeatOp? && states[j].connected && (ops[j].freq1 != 0 || ops[j].freq2 != 0)
    requires forall n :: j < n < k ==> !ops[n].HeartbeatOp?
    ensures states[k].btFreq1 == ops[j].freq1 && states[k].btFreq2 == ops[j].freq2
    ensures states[k].btLastSeenFrame == states[j].frameCounter && states[k].connected
  {
    assert StepAt(ops, states, j);
    for n := j + 1 to k
      invariant states[n].btFreq1 == ops[j].freq1 && states[n].btFreq2 == ops[j].freq2
      invariant states[n].btLastSeenFrame == states[j].frameCounter && states[n].connected
    {
      assert StepAt(ops, states, n) && Steady(ops[n]);
      if ops[n].FrameOp? { FrameKeepsPen(states[n], ops[n].w); }
    }
  }
}
