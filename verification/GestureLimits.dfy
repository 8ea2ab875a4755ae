/** Inputs on which a promise of the gesture machine fails, for every configuration outside the safe ones:
    together with what holds they give the exact conditions. */
module GestureLimits {
  import opened EngineTypes
  import opened GestureModel
  import opened GestureLife

  const TOUCH: Contact := BLANK.(id := 1)

  // ----- single frames -----

  /** The first frame of a contact. */
  lemma FirstTouch(cfg: Config, c: Contact)
    requires cfg.Valid()
    ensures SlotAfter(cfg, [Present(c)]) == Press(RESET, c)
    ensures Word(cfg, [Present(c)]) == if cfg.pressCandidateFrames == 1 then [Report(ReportDown, c.x, c.y)] else []
  {
    OneMoreInput(cfg, [], Present(c));
    assert [] + [Present(c)] == [Present(c)];
  }

  /** One more frame after a run whose slot and reports are known. */
  lemma NextFrame(cfg: Config, ins: seq<Input>, s: Slot, w: seq<Report>, i: Input)
    requires SlotAfter(cfg, ins) == s && Word(cfg, ins) == w
    ensures SlotAfter(cfg, ins + [i]) == Next(cfg, s, i) && Word(cfg, ins + [i]) == w + FrameReports(cfg, s, i)
  {
    OneMoreInput(cfg, ins, i);
  }

  /** A press whose contact is beyond the drag threshold turns into a drag. */
  lemma DragFrame(cfg: Config, s: Slot, c: Contact)
    requires cfg.Valid() && s.phase == PressCandidate && Far(s, c, cfg.dragThreshold)
    ensures FrameReports(cfg, s, Present(c)) == [Report(ReportMove, c.x, c.y)]
  {
  }

  /** A lifted contact on a press inside the grace: a Move is reported and the slot waits. */
  lemma LiftedOnPress(cfg: Config, s: Slot)
    requires cfg.Valid() && s.phase == PressCandidate && cfg.releasePendingFrames >= 1
    ensures Next(cfg, s, UpOnly) == s.(prevPhase := PressCandidate, phase := ReleasePending, missingFrames := 1)
    ensures FrameReports(cfg, s, UpOnly) == [Report(ReportMove, s.lastOutputX, s.lastOutputY)]
  {
  }

  /** A contact that vanishes from a press inside the grace. */
  lemma GoneFromPress(cfg: Config, s: Slot)
    requires cfg.Valid() && s.phase == PressCandidate && cfg.releasePendingFrames >= 1
    ensures Next(cfg, s, Absent) == s.(prevPhase := PressCandidate, phase := ReleasePending, missingFrames := 1)
  {
  }

  /** A contact that comes back to a press with enough stable frames: Down again, at the old anchor. */
  lemma BackToPress(cfg: Config, s: Slot, c: Contact)
    requires cfg.Valid() && s.phase == ReleasePending && s.prevPhase == PressCandidate
    requires s.stableFrames >= cfg.pressCandidateFrames
    ensures FrameReports(cfg, s, Present(c)) == [Report(ReportDown, s.lastOutputX, s.lastOutputY)]
  {
  }

  // ----- the language -----

  /** Appending a report that must not follow the last one leaves the language. */
  lemma BadNext(w: seq<Report>, r: Report)
    requires !Follows(LastEvent(w), r.event)
    ensures !WellFormed(w + [r])
  {
    var a := w + [r];
    if |w| == 0 {
      assert a[0] == r;
    } else {
      assert a[|w| - 1] == w[|w| - 1] && a[|w|] == r;
    }
  }

  lemma FarOffset(limit: real)
    requires limit > 0.0
    ensures (limit + 1.0) * (limit + 1.0) > limit * limit
  {
  }

  /** With more than one press-candidate frame a quick drag reports a Move that no Down announced. */
  lemma DragWithoutDown(cfg: Config)
    requires cfg.Valid() && cfg.pressCandidateFrames > 1
    ensures exists ins :: UpFree(ins) && !WellFormed(Word(cfg, ins))
  {
    var one, far := [Present(TOUCH)], TOUCH.(x := cfg.dragThreshold + 1.0);
    FirstTouch(cfg, TOUCH);
    var s := Press(RESET, TOUCH);
    FarOffset(cfg.dragThreshold);
    DragFrame(cfg, s, far);
    NextFrame(cfg, one, s, [], Present(far));
    var ins := one + [Present(far)];
    BadNext([], Report(ReportMove, far.x, far.y));
    assert UpFree(ins) && !WellFormed(Word(cfg, ins));
  }

  /** Down and Move: a touch, and a lifted contact inside the grace. */
  lemma DownMove(cfg: Config)
    requires cfg.Valid() && cfg.pressCandidateFrames == 1 && cfg.releasePendingFrames >= 1
    ensures var s := SlotAfter(cfg, [Present(TOUCH)] + [UpOnly]);
      s.phase == ReleasePending && s.prevPhase == PressCandidate && s.stableFrames == 1
      && s.lastOutputX == 0.0 && s.lastOutputY == 0.0
    ensures Word(cfg, [Present(TOUCH)] + [UpOnly]) == [Report(ReportDown, 0.0, 0.0)] + [Report(ReportMove, 0.0, 0.0)]
  {
    var s := Press(RESET, TOUCH);
    FirstTouch(cfg, TOUCH);
    LiftedOnPress(cfg, s);
    NextFrame(cfg, [Present(TOUCH)], s, [Report(ReportDown, 0.0, 0.0)], UpOnly);
  }

  /** A waiting press that the contact finds again says Down; after a Move that leaves the language. */
  lemma DownAfterMove(cfg: Config, ins: seq<Input>, s: Slot, w: seq<Report>, c: Contact)
    requires cfg.Valid() && cfg.pressCandidateFrames == 1 && SlotAfter(cfg, ins) == s && Word(cfg, ins) == w
    requires s.phase == ReleasePending && s.prevPhase == PressCandidate && s.stableFrames >= 1
    requires LastEvent(w) == ReportMove
    ensures !WellFormed(Word(cfg, ins + [Present(c)]))
  {
    BackToPress(cfg, s, c);
    NextFrame(cfg, ins, s, w, Present(c));
    BadNext(w, Report(ReportDown, s.lastOutputX, s.lastOutputY));
  }

  /** With a grace window, a lifted contact that returns is reported Down, Move, Down. */
  lemma DownMoveDown(cfg: Config)
    requires cfg.Valid() && cfg.pressCandidateFrames == 1 && cfg.releasePendingFrames >= 1
    ensures exists ins :: !WellFormed(Word(cfg, ins))
  {
    var two := [Present(TOUCH)] + [UpOnly];
    DownMove(cfg);
    DownAfterMove(cfg, two, SlotAfter(cfg, two), Word(cfg, two), TOUCH);
    assert !WellFormed(Word(cfg, two + [Present(TOUCH)]));
  }

  /** Without grace, and without lifted contacts, every input is safe. */
  lemma QuietInputsAreSafe(cfg: Config, ins: seq<Input>)
    requires cfg.releasePendingFrames == 0 || UpFree(ins)
    ensures SafeUps(cfg, ins)
  {
  }

  /** On all inputs the reports of an id follow (Down+ Move* Up)* exactly when one frame presses and
      none is granted for release. */
  lemma LanguageIffInstant(cfg: Config)
    requires cfg.Valid()
    ensures (forall ins :: WellFormed(Word(cfg, ins)))
       <==> cfg.pressCandidateFrames == 1 && cfg.releasePendingFrames == 0
  {
    if cfg.pressCandidateFrames > 1 {
      DragWithoutDown(cfg);
    } else if cfg.releasePendingFrames >= 1 {
      DownMoveDown(cfg);
    } else {
      forall ins ensures WellFormed(Word(cfg, ins)) {
        QuietInputsAreSafe(cfg, ins);
        LanguageHolds(cfg, ins);
      }
    }
  }

  /** When lifted contacts never reach the machine, the grace window does not matter. */
  lemma LanguageIffUpFree(cfg: Config)
    requires cfg.Valid()
    ensures (forall ins :: UpFree(ins) ==> WellFormed(Word(cfg, ins))) <==> cfg.pressCandidateFrames == 1
  {
    if cfg.pressCandidateFrames > 1 {
      DragWithoutDown(cfg);
    } else {
      forall ins | UpFree(ins) ensures WellFormed(Word(cfg, ins)) {
        QuietInputsAreSafe(cfg, ins);
        LanguageHolds(cfg, ins);
      }
    }
  }

  // ----- the position of an Up -----

  /** With more than one press frame a short touch reports an Up and nothing before it. */
  lemma UpAlone(cfg: Config)
    requires cfg.Valid() && cfg.pressCandidateFrames > 1
    ensures exists ins :: Word(cfg, ins) == [Report(ReportUp, 0.0, 0.0)]
  {
    var one, k := [Present(TOUCH)], cfg.releasePendingFrames + 1;
    FirstTouch(cfg, TOUCH);
    PressEndsAfterGrace(cfg, one, k);
    assert Word(cfg, one + Nothing(k)) == [] + [Report(ReportUp, 0.0, 0.0)] == [Report(ReportUp, 0.0, 0.0)];
  }

  /** Every Up carries the position last reported for its id, on all inputs, exactly when one frame presses. */
  lemma UpRepeatsIff(cfg: Config)
    requires cfg.Valid()
    ensures (forall ins :: UpsRepeatPositions(Word(cfg, ins))) <==> cfg.pressCandidateFrames == 1
  {
    if cfg.pressCandidateFrames > 1 {
      UpAlone(cfg);
      var ins :| Word(cfg, ins) == [Report(ReportUp, 0.0, 0.0)];
      assert Word(cfg, ins)[0].event == ReportUp;
    } else {
      forall ins ensures UpsRepeatPositions(Word(cfg, ins)) { UpRepeatsLastPosition(cfg, ins); }
    }
  }

  // ----- the distance of a report from its contact -----

  /** A press can last until its Down: it is short of the long press, or the finger can rest outside the
      tolerance of the long press without dragging. */
  predicate PressCanReport(cfg: Config) {
    cfg.pressCandidateFrames < Max(2, cfg.longPressFrames) || cfg.longPressMoveTolerance < cfg.dragThreshold
  }

  /** A strong contact at the drag threshold from where it came down. */
  function Hover(cfg: Config): Contact {
    TOUCH.(x := cfg.dragThreshold, signalSum := cfg.pressCandidateMinSignal, sizeMm := cfg.pressCandidateMinSizeMm)
  }

  function Hovering(cfg: Config, k: nat): (ins: seq<Input>)
    requires k >= 1
    ensures |ins| == k
  {
    if k == 1 then [Present(TOUCH)] else Hovering(cfg, k - 1) + [Present(Hover(cfg))]
  }

  /** A press candidate of age `k`, stable throughout, anchored at the origin. */
  ghost predicate PressedFor(s: Slot, k: nat) {
    && s.phase == PressCandidate && s.ageFrames == k && s.stableFrames == k
    && s.anchorX == 0.0 && s.anchorY == 0.0 && s.lastOutputX == 0.0 && s.lastOutputY == 0.0
  }

  lemma SquareGrows(a: real, b: real)
    requires 0.0 < a < b
    ensures a * a < b * b
  {
    assert a * a < a * b < b * b;
  }

  lemma HoverOnce(cfg: Config, s: Slot, k: nat)
    requires cfg.Valid() && PressCanReport(cfg) && 1 <= k < cfg.pressCandidateFrames && PressedFor(s, k)
    ensures PressedFor(Next(cfg, s, Present(Hover(cfg))), k + 1)
  {
    var c := Hover(cfg);
    assert DistanceSq(c.x, c.y, 0.0, 0.0) == cfg.dragThreshold * cfg.dragThreshold;
    if cfg.longPressMoveTolerance < cfg.dragThreshold { SquareGrows(cfg.longPressMoveTolerance, cfg.dragThreshold); }
  }

  lemma {:induction false} HoveringPress(cfg: Config, k: nat)
    requires cfg.Valid() && PressCanReport(cfg) && 1 <= k <= cfg.pressCandidateFrames
    ensures PressedFor(SlotAfter(cfg, Hovering(cfg, k)), k)
  {
    if k == 1 {
      FirstTouch(cfg, TOUCH);
    } else {
      HoveringPress(cfg, k - 1);
      HoverOnce(cfg, SlotAfter(cfg, Hovering(cfg, k - 1)), k - 1);
      OneMoreInput(cfg, Hovering(cfg, k - 1), Present(Hover(cfg)));
    }
  }

  /** A waiting press anchored at the origin, found again beyond the drag threshold. */
  lemma FarFromAnchor(cfg: Config, s: Slot, far: Contact)
    requires cfg.Valid() && s.phase == ReleasePending && s.prevPhase == PressCandidate
    requires s.stableFrames >= cfg.pressCandidateFrames && s.lastOutputX == 0.0 && s.lastOutputY == 0.0
    requires far == TOUCH.(x := cfg.dragThreshold + 1.0)
    ensures !Close(cfg, s, Present(far))
  {
    var r := Report(ReportDown, 0.0, 0.0);
    BackToPress(cfg, s, far);
    FarOffset(cfg.dragThreshold);
    assert FrameReports(cfg, s, Present(far))[0] == r && SquaredOffset(r, far) > cfg.dragThreshold * cfg.dragThreshold;
  }

  /** A recovered press keeps its anchor without looking how far the contact has moved. */
  lemma RecoveredFarAway(cfg: Config)
    requires cfg.Valid() && cfg.releasePendingFrames >= 1 && PressCanReport(cfg)
    ensures exists ins: seq<Input>, i: Input :: !Close(cfg, SlotAfter(cfg, ins), i)
  {
    var ins, far := Hovering(cfg, cfg.pressCandidateFrames), TOUCH.(x := cfg.dragThreshold + 1.0);
    HoveringPress(cfg, cfg.pressCandidateFrames);
    var s := SlotAfter(cfg, ins);
    GoneFromPress(cfg, s);
    NextFrame(cfg, ins, s, Word(cfg, ins), Absent);
    FarFromAnchor(cfg, SlotAfter(cfg, ins + [Absent]), far);
    assert !Close(cfg, SlotAfter(cfg, ins + [Absent]), Present(far));
  }

  /** A press that has not turned into a long press yet. */
  ghost predicate ShortPress(cfg: Config, slot: Slot) {
    slot.phase in {PressCandidate, ReleasePending} ==>
      0 <= slot.stableFrames <= slot.ageFrames && 1 <= slot.ageFrames < Max(2, cfg.longPressFrames)
  }

  lemma SquareKeepsOrder(a: real, b: real)
    requires 0.0 < a <= b
    ensures a * a <= b * b
  {
    if a < b { SquareGrows(a, b); }
  }

  lemma TouchKeepsShort(cfg: Config, slot: Slot, c: Contact)
    requires cfg.Valid() && cfg.dragThreshold <= cfg.longPressMoveTolerance
    requires SlotOk(cfg, slot) && ShortPress(cfg, slot)
    ensures ShortPress(cfg, Next(cfg, slot, Present(c)))
  {
    SquareKeepsOrder(cfg.dragThreshold, cfg.longPressMoveTolerance);
  }

  lemma LossKeepsShort(cfg: Config, slot: Slot, i: Input)
    requires cfg.Valid() && SlotOk(cfg, slot) && ShortPress(cfg, slot) && !i.Present?
    ensures ShortPress(cfg, Next(cfg, slot, i))
  {
  }

  lemma {:induction false} PressStaysShort(cfg: Config, ins: seq<Input>)
    requires cfg.Valid() && cfg.dragThreshold <= cfg.longPressMoveTolerance
    ensures SlotOk(cfg, SlotAfter(cfg, ins)) && ShortPress(cfg, SlotAfter(cfg, ins))
  {
    SlotAlwaysOk(cfg, ins);
    if |ins| > 0 {
      var n := |ins| - 1;
      PressStaysShort(cfg, ins[..n]);
      var slot, i := SlotAfter(cfg, ins[..n]), ins[n];
      if i.Present? { TouchKeepsShort(cfg, slot, i.c); } else { LossKeepsShort(cfg, slot, i); }
    }
  }

  /** When the long press always comes before the Down, a recovered press reports nothing. */
  lemma RecoveredInSilence(cfg: Config, slot: Slot, c: Contact)
    requires cfg.Valid() && !PressCanReport(cfg) && SlotOk(cfg, slot) && ShortPress(cfg, slot)
    requires slot.phase == ReleasePending
    ensures FrameReports(cfg, slot, Present(c)) == []
  {
  }

  lemma CloseWithoutDown(cfg: Config, slot: Slot, i: Input)
    requires cfg.Valid() && !PressCanReport(cfg) && SlotOk(cfg, slot) && ShortPress(cfg, slot)
    ensures Close(cfg, slot, i)
  {
    if slot.phase != ReleasePending {
      CloseUnlessWaiting(cfg, slot, i);
    } else if i.Present? {
      RecoveredInSilence(cfg, slot, i.c);
    }
  }

  /** Reports stay within the drag threshold of their contacts on all inputs exactly when no grace is granted,
      or the long press always comes before the Down. */
  lemma CloseIff(cfg: Config)
    requires cfg.Valid()
    ensures (forall ins: seq<Input>, i: Input :: Close(cfg, SlotAfter(cfg, ins), i))
       <==> cfg.releasePendingFrames == 0 || !PressCanReport(cfg)
  {
    if cfg.releasePendingFrames >= 1 && PressCanReport(cfg) {
      RecoveredFarAway(cfg);
    } else {
      forall ins: seq<Input>, i: Input ensures Close(cfg, SlotAfter(cfg, ins), i) {
        SlotAlwaysOk(cfg, ins);
        if cfg.releasePendingFrames == 0 {
          CloseUnlessWaiting(cfg, SlotAfter(cfg, ins), i);
        } else {
          PressStaysShort(cfg, ins);
          CloseWithoutDown(cfg, SlotAfter(cfg, ins), i);
        }
      }
    }
  }
}
