/** Every transition of a gesture slot that has a contact, with its exact condition and its reports, and what resting,
    held and dragging fingers report over whole stretches of frames. */
module GestureMoves {
  import opened EngineTypes
  import opened GestureModel
  import opened GestureLife

  /** The contact is within `limit` of the anchor. */
  ghost predicate Near(slot: Slot, c: Contact, limit: real) {
    var dx, dy := c.x - slot.anchorX, c.y - slot.anchorY;
    dx * dx + dy * dy <= limit * limit
  }

  lemma NearIsNotFar(slot: Slot, c: Contact, limit: real)
    ensures Near(slot, c, limit) <==> !Far(slot, c, limit)
  {
  }

  /** Strong and large enough to count towards the Down. */
  ghost predicate Firm(cfg: Config, c: Contact) {
    && (cfg.pressCandidateMinSignal == 0 || c.signalSum >= cfg.pressCandidateMinSignal)
    && (cfg.pressCandidateMinSizeMm == 0.0 || c.sizeMm >= cfg.pressCandidateMinSizeMm)
  }

  /** The slot remembers what contact `c` measured. */
  ghost predicate Remembers(slot: Slot, c: Contact) {
    slot.area == c.area && slot.signalSum == c.signalSum && slot.sizeMm == c.sizeMm && slot.isEdge == c.isEdge
  }

  ghost predicate Anchored(slot: Slot, x: real, y: real) { slot.anchorX == x && slot.anchorY == y }

  /** Close enough to the anchor for a long press, and old enough. */
  ghost predicate LongEnough(cfg: Config, slot: Slot, c: Contact, age: int) {
    age >= cfg.longPressFrames && Near(slot, c, cfg.dragThreshold) && Near(slot, c, cfg.longPressMoveTolerance)
  }

  // ----- one frame -----

  /** A first contact becomes a press candidate anchored where it is, unless the slot sits out the frame after an Up. */
  lemma IdleMoves(cfg: Config, slot: Slot, c: Contact)
    requires cfg.Valid() && slot.phase == Idle
    ensures var t, r := Next(cfg, slot, Present(c)), FrameReports(cfg, slot, Present(c));
      if slot.upEmitted then t == slot.(upEmitted := false) && r == []
      else
        && t.phase == PressCandidate && Anchored(t, c.x, c.y) && t.ageFrames == 1 && t.stableFrames == 1
        && Remembers(t, c) && !t.upEmitted
        && r == if cfg.pressCandidateFrames == 1 then [Report(ReportDown, c.x, c.y)] else []
  {
  }

  /** A press candidate drags exactly when its contact is beyond the drag threshold; failing that it is a long press
      exactly from the configured age on and within the tolerance; failing that it stays, and says Down exactly when it
      has been firm for long enough. */
  lemma PressMoves(cfg: Config, slot: Slot, c: Contact)
    requires cfg.Valid() && slot.phase == PressCandidate
    ensures var t, r := Next(cfg, slot, Present(c)), FrameReports(cfg, slot, Present(c));
      && t.ageFrames == (slot.ageFrames + 1) % 65536 && Remembers(t, c) && Anchored(t, slot.anchorX, slot.anchorY)
      && t.stableFrames == (if Firm(cfg, c) then (slot.stableFrames + 1) % 65536 else 0)
      && (t.phase == Dragging <==> !Near(slot, c, cfg.dragThreshold))
      && (t.phase == LongPressHold <==> LongEnough(cfg, slot, c, t.ageFrames))
      && t.phase in {PressCandidate, Dragging, LongPressHold}
      && r == (if t.phase == Dragging then [Report(ReportMove, c.x, c.y)]
               else if t.phase == LongPressHold then [Report(ReportMove, slot.anchorX, slot.anchorY)]
               else if t.stableFrames >= cfg.pressCandidateFrames then [Report(ReportDown, slot.anchorX, slot.anchorY)]
               else [])
  {
    NearIsNotFar(slot, c, cfg.dragThreshold);
    NearIsNotFar(slot, c, cfg.longPressMoveTolerance);
  }

  /** A long press holds exactly while its contact is within the drag threshold of the anchor, and reports the anchor;
      beyond it, it drags. */
  lemma HoldMoves(cfg: Config, slot: Slot, c: Contact)
    requires cfg.Valid() && slot.phase == LongPressHold
    ensures var t, r := Next(cfg, slot, Present(c)), FrameReports(cfg, slot, Present(c));
      && t.phase == (if Near(slot, c, cfg.dragThreshold) then LongPressHold else Dragging)
      && r == [if Near(slot, c, cfg.dragThreshold) then Report(ReportMove, slot.anchorX, slot.anchorY)
               else Report(ReportMove, c.x, c.y)]
      && Anchored(t, slot.anchorX, slot.anchorY) && Remembers(t, c)
  {
    NearIsNotFar(slot, c, cfg.dragThreshold);
  }

  /** A drag goes on wherever the contact is, and reports where that is. */
  lemma DragMoves(cfg: Config, slot: Slot, c: Contact)
    requires cfg.Valid() && slot.phase == Dragging
    ensures var t, r := Next(cfg, slot, Present(c)), FrameReports(cfg, slot, Present(c));
      && t.phase == Dragging && Remembers(t, c) && r == [Report(ReportMove, c.x, c.y)]
  {
  }

  /** A contact back within the grace makes its slot the press candidate it was, at the old anchor and age, even if it
      has come back elsewhere. */
  lemma RecoverMoves(cfg: Config, slot: Slot, c: Contact)
    requires cfg.Valid() && SlotOk(cfg, slot) && slot.phase == ReleasePending
    ensures var t, r := Next(cfg, slot, Present(c)), FrameReports(cfg, slot, Present(c));
      && t.phase == PressCandidate && Anchored(t, slot.anchorX, slot.anchorY) && Remembers(t, c)
      && t.ageFrames == slot.ageFrames && t.stableFrames == slot.stableFrames
      && r == if slot.stableFrames >= cfg.pressCandidateFrames then [Report(ReportDown, slot.anchorX, slot.anchorY)]
              else []
  {
  }

  /** A press candidate without a contact waits as long as there is a grace, remembering its last contact; a lifted
      contact is then reported as a Move at the anchor. */
  lemma MissMoves(cfg: Config, slot: Slot, i: Input)
    requires cfg.Valid() && SlotOk(cfg, slot) && slot.phase == PressCandidate && !i.Present?
    ensures var t, r := Next(cfg, slot, i), FrameReports(cfg, slot, i);
      && (cfg.releasePendingFrames > 0 ==>
            && t == slot.(phase := ReleasePending, prevPhase := PressCandidate, missingFrames := 1)
            && r == if i.UpOnly? then [Report(ReportMove, slot.anchorX, slot.anchorY)] else [])
      && (cfg.releasePendingFrames == 0 ==>
            && t.phase == Idle && t.upEmitted
            && r == (if i.UpOnly? then [Report(ReportMove, slot.anchorX, slot.anchorY)] else [])
                    + [Report(ReportUp, slot.anchorX, slot.anchorY)])
  {
  }

  // ----- stretches of frames -----

  ghost function Presents(cs: seq<Contact>): (ins: seq<Input>)
    ensures |ins| == |cs| && forall n :: 0 <= n < |ins| ==> ins[n] == Present(cs[n])
  {
    seq(|cs|, n requires 0 <= n < |cs| => Present(cs[n]))
  }

  ghost function MovesAt(x: real, y: real, n: nat): (w: seq<Report>)
    ensures |w| == n && forall k :: 0 <= k < n ==> w[k] == Report(ReportMove, x, y)
  {
    seq(n, _ => Report(ReportMove, x, y))
  }

  ghost function MovesAlong(cs: seq<Contact>): (w: seq<Report>)
    ensures |w| == |cs| && forall k :: 0 <= k < |cs| ==> w[k] == Report(ReportMove, cs[k].x, cs[k].y)
  {
    seq(|cs|, k requires 0 <= k < |cs| => Report(ReportMove, cs[k].x, cs[k].y))
  }

  /** The inputs one contact longer. */
  lemma OneMoreContact(cfg: Config, ins: seq<Input>, cs: seq<Contact>, before: seq<Input>, c: Contact)
    requires |cs| > 0 && before == ins + Presents(cs[..|cs| - 1]) && c == cs[|cs| - 1]
    ensures SlotAfter(cfg, ins + Presents(cs)) == Next(cfg, SlotAfter(cfg, before), Present(c))
    ensures Word(cfg, ins + Presents(cs)) == Word(cfg, before) + FrameReports(cfg, SlotAfter(cfg, before), Present(c))
  {
    var all := ins + Presents(cs);
    assert all == before + [Present(c)];
    OneMoreInput(cfg, before, Present(c));
  }

  /** Slot `t` and reports `w` when long press `s`, with `w0` reported, has been held for `k` frames more. */
  ghost predicate Held(s: Slot, w0: seq<Report>, k: nat, t: Slot, w: seq<Report>) {
    t.phase == LongPressHold && Anchored(t, s.anchorX, s.anchorY) && w == w0 + MovesAt(s.anchorX, s.anchorY, k)
  }

  lemma HeldOneLonger(cfg: Config, s: Slot, w0: seq<Report>, k: nat, t: Slot, w: seq<Report>, c: Contact)
    requires cfg.Valid() && Held(s, w0, k, t, w) && Near(s, c, cfg.dragThreshold)
    ensures Held(s, w0, k + 1, Next(cfg, t, Present(c)), w + FrameReports(cfg, t, Present(c)))
  {
    HoldMoves(cfg, t, c);
    assert MovesAt(s.anchorX, s.anchorY, k + 1)
        == MovesAt(s.anchorX, s.anchorY, k) + [Report(ReportMove, s.anchorX, s.anchorY)];
  }

  /** A long press whose contact stays within the drag threshold lasts, and reports its anchor in every frame. */
  lemma {:induction false} HeldStays(cfg: Config, ins: seq<Input>, cs: seq<Contact>)
    requires cfg.Valid() && SlotAfter(cfg, ins).phase == LongPressHold
    requires forall k :: 0 <= k < |cs| ==> Near(SlotAfter(cfg, ins), cs[k], cfg.dragThreshold)
    ensures Held(SlotAfter(cfg, ins), Word(cfg, ins), |cs|, SlotAfter(cfg, ins + Presents(cs)),
                 Word(cfg, ins + Presents(cs)))
  {
    if |cs| == 0 {
      assert ins + Presents(cs) == ins;
    } else {
      var init, c := cs[..|cs| - 1], cs[|cs| - 1];
      var before := ins + Presents(init);
      HeldStays(cfg, ins, init);
      OneMoreContact(cfg, ins, cs, before, c);
      HeldOneLonger(cfg, SlotAfter(cfg, ins), Word(cfg, ins), |init|, SlotAfter(cfg, before), Word(cfg, before), c);
    }
  }

  ghost predicate Dragged(w0: seq<Report>, cs: seq<Contact>, t: Slot, w: seq<Report>) {
    t.phase == Dragging && w == w0 + MovesAlong(cs)
  }

  lemma DraggedOneLonger(cfg: Config, w0: seq<Report>, cs: seq<Contact>, t: Slot, w: seq<Report>, c: Contact)
    requires cfg.Valid() && |cs| > 0 && c == cs[|cs| - 1] && Dragged(w0, cs[..|cs| - 1], t, w)
    ensures Dragged(w0, cs, Next(cfg, t, Present(c)), w + FrameReports(cfg, t, Present(c)))
  {
    DragMoves(cfg, t, c);
    assert MovesAlong(cs) == MovesAlong(cs[..|cs| - 1]) + [Report(ReportMove, c.x, c.y)];
  }

  /** A drag reports every contact where it is. */
  lemma {:induction false} DragFollows(cfg: Config, ins: seq<Input>, cs: seq<Contact>)
    requires cfg.Valid() && SlotAfter(cfg, ins).phase == Dragging
    ensures Dragged(Word(cfg, ins), cs, SlotAfter(cfg, ins + Presents(cs)), Word(cfg, ins + Presents(cs)))
  {
    if |cs| == 0 {
      assert ins + Presents(cs) == ins;
    } else {
      var init, c := cs[..|cs| - 1], cs[|cs| - 1];
      var before := ins + Presents(init);
      DragFollows(cfg, ins, init);
      OneMoreContact(cfg, ins, cs, before, c);
      DraggedOneLonger(cfg, Word(cfg, ins), cs, SlotAfter(cfg, before), Word(cfg, before), c);
    }
  }

  /** What a finger at rest at (x, y) reports in its `k`-th frame: nothing at first, then Down, and Move from the long
      press on. */
  ghost function RestReport(cfg: Config, x: real, y: real, k: nat): seq<Report> {
    if k >= Max(2, cfg.longPressFrames) then [Report(ReportMove, x, y)]
    else if k >= cfg.pressCandidateFrames then [Report(ReportDown, x, y)]
    else []
  }

  ghost function RestReports(cfg: Config, x: real, y: real, k: nat): seq<Report> {
    if k == 0 then [] else RestReports(cfg, x, y, k - 1) + RestReport(cfg, x, y, k)
  }

  /** Slot `t` and reports `w` when a finger has rested at (x, y) for `k` frames. */
  ghost predicate Rested(cfg: Config, w0: seq<Report>, x: real, y: real, k: nat, t: Slot, w: seq<Report>) {
    && k >= 1 && w == w0 + RestReports(cfg, x, y, k) && Anchored(t, x, y)
    && if k >= Max(2, cfg.longPressFrames) then t.phase == LongPressHold
       else t.phase == PressCandidate && t.ageFrames == k && t.stableFrames == k
  }

  /** Firm, and within both limits of (x, y). */
  ghost predicate AtRest(cfg: Config, x: real, y: real, c: Contact) {
    && Firm(cfg, c)
    && Near(RESET.(anchorX := x, anchorY := y), c, cfg.dragThreshold)
    && Near(RESET.(anchorX := x, anchorY := y), c, cfg.longPressMoveTolerance)
  }

  lemma RestStarts(cfg: Config, w0: seq<Report>, s: Slot, c: Contact)
    requires cfg.Valid() && s.phase == Idle && !s.upEmitted
    ensures Rested(cfg, w0, c.x, c.y, 1, Next(cfg, s, Present(c)), w0 + FrameReports(cfg, s, Present(c)))
  {
    IdleMoves(cfg, s, c);
    assert RestReports(cfg, c.x, c.y, 1) == RestReports(cfg, c.x, c.y, 0) + RestReport(cfg, c.x, c.y, 1);
  }

  lemma NearByAnchor(s: Slot, t: Slot, c: Contact, limit: real)
    requires Anchored(s, t.anchorX, t.anchorY)
    ensures Near(s, c, limit) <==> Near(t, c, limit)
  {
  }

  lemma RestOneLonger(cfg: Config, w0: seq<Report>, x: real, y: real, k: nat, t: Slot, w: seq<Report>, c: Contact)
    requires cfg.Valid() && Rested(cfg, w0, x, y, k, t, w) && AtRest(cfg, x, y, c)
    ensures Rested(cfg, w0, x, y, k + 1, Next(cfg, t, Present(c)), w + FrameReports(cfg, t, Present(c)))
  {
    var at := RESET.(anchorX := x, anchorY := y);
    NearByAnchor(t, at, c, cfg.dragThreshold);
    NearByAnchor(t, at, c, cfg.longPressMoveTolerance);
    var n := k + 1;
    assert RestReports(cfg, x, y, n) == RestReports(cfg, x, y, k) + RestReport(cfg, x, y, n);
    if k >= Max(2, cfg.longPressFrames) { HoldMoves(cfg, t, c); } else { PressMoves(cfg, t, c); }
  }

  /** A finger that has rested at (x, y) for the frames `cs`. */
  ghost predicate RestedFor(cfg: Config, ins: seq<Input>, cs: seq<Contact>, x: real, y: real) {
    Rested(cfg, Word(cfg, ins), x, y, |cs|, SlotAfter(cfg, ins + Presents(cs)), Word(cfg, ins + Presents(cs)))
  }

  lemma RestingStart(cfg: Config, ins: seq<Input>, c: Contact)
    requires cfg.Valid() && SlotAfter(cfg, ins).phase == Idle && !SlotAfter(cfg, ins).upEmitted
    ensures RestedFor(cfg, ins, [c], c.x, c.y)
  {
    assert ins + Presents([c][..0]) == ins;
    OneMoreContact(cfg, ins, [c], ins, c);
    RestStarts(cfg, Word(cfg, ins), SlotAfter(cfg, ins), c);
  }

  lemma RestingStep(cfg: Config, ins: seq<Input>, cs: seq<Contact>, x: real, y: real)
    requires cfg.Valid() && |cs| > 1 && RestedFor(cfg, ins, cs[..|cs| - 1], x, y) && AtRest(cfg, x, y, cs[|cs| - 1])
    ensures RestedFor(cfg, ins, cs, x, y)
  {
    var n, c := |cs| - 1, cs[|cs| - 1];
    var before := ins + Presents(cs[..n]);
    OneMoreContact(cfg, ins, cs, before, c);
    RestOneLonger(cfg, Word(cfg, ins), x, y, n, SlotAfter(cfg, before), Word(cfg, before), c);
  }

  /** A finger that comes down on an idle slot and rests is silent until it has been there for the press frames, says
      Down at its first position until the long-press age, and Move there for as long as it stays. */
  lemma {:induction false} RestingFinger(cfg: Config, ins: seq<Input>, cs: seq<Contact>)
    requires cfg.Valid() && SlotAfter(cfg, ins).phase == Idle && !SlotAfter(cfg, ins).upEmitted && |cs| >= 1
    requires forall k :: 1 <= k < |cs| ==> AtRest(cfg, cs[0].x, cs[0].y, cs[k])
    ensures RestedFor(cfg, ins, cs, cs[0].x, cs[0].y)
  {
    if |cs| == 1 {
      assert cs == [cs[0]];
      RestingStart(cfg, ins, cs[0]);
    } else {
      RestingFinger(cfg, ins, cs[..|cs| - 1]);
      RestingStep(cfg, ins, cs, cs[0].x, cs[0].y);
    }
  }

  // ----- what is handed on beside the event and the position -----

  /** Waiting slots still remember the last contact, so the Up carries its measurements. */
  lemma NextRemembers(cfg: Config, slot: Slot, i: Input, c: Contact)
    requires cfg.Valid() && SlotOk(cfg, slot) && (if i.Present? then i.c == c else Remembers(slot, c))
    ensures Next(cfg, slot, i).phase != Idle ==> Remembers(Next(cfg, slot, i), c)
  {
    if i.Present? {
      match slot.phase
      case Idle => IdleMoves(cfg, slot, c);
      case PressCandidate => PressMoves(cfg, slot, c);
      case Dragging => DragMoves(cfg, slot, c);
      case LongPressHold => HoldMoves(cfg, slot, c);
      case ReleasePending => RecoverMoves(cfg, slot, c);
    }
  }

  /** Contacts handed on keep everything but event and position, and the position too unless they are reported. */
  lemma OutputKeepsContacts(cfg: Config, slots: seq<Slot>, contacts: seq<Contact>, k: nat)
    requires |slots| == SLOTS && k < |contacts|
    ensures |Output(cfg, slots, contacts)| >= |contacts|
    ensures var o, c := Output(cfg, slots, contacts)[k], contacts[k];
      && o.id == c.id && o.state == c.state && o.area == c.area && o.signalSum == c.signalSum && o.sizeMm == c.sizeMm
      && o.isEdge == c.isEdge && o.lifeFlags == c.lifeFlags && o.prevIndex == c.prevIndex
      && (1 <= c.id <= SLOTS && !o.isReported ==> o.reportEvent == ReportIdle && o.x == c.x && o.y == c.y)
      && (1 <= c.id <= SLOTS && o.isReported ==> o.reportEvent in {ReportDown, ReportMove})
      && (!(1 <= c.id <= SLOTS) ==> o == c)
  {
    var mid := Middle(cfg, slots, contacts);
    assert Output(cfg, slots, contacts)[k] == RewrittenAll(cfg, mid, contacts)[k];
  }

  lemma {:induction false} UpIsListed(cfg: Config, mid: seq<Slot>, n: nat, id: int)
    requires n <= |mid| && 1 <= id <= n && Expired(cfg, mid[id - 1])
    ensures UpEvent(mid[id - 1], id) in UpEvents(cfg, mid, n)
  {
    if id < n { UpIsListed(cfg, mid, n - 1, id); }
  }

  /** The Up of a slot that ends carries the measurements of the last contact it saw. */
  lemma UpCarries(cfg: Config, slots: seq<Slot>, contacts: seq<Contact>, id: int, c: Contact) returns (up: Contact)
    requires cfg.Valid() && |slots| == SLOTS && 1 <= id <= SLOTS && SlotOk(cfg, slots[id - 1])
    requires LiveContact(contacts, id).None? && slots[id - 1].phase != Idle && Remembers(slots[id - 1], c)
    requires After(cfg, slots, contacts)[id - 1].phase == Idle
    ensures up in Output(cfg, slots, contacts) && up.id == id && up.state == StateUp && up.isReported
    ensures up.reportEvent == ReportUp && up.lifeFlags == {LifeLiftOff}
    ensures up.x == slots[id - 1].lastOutputX && up.y == slots[id - 1].lastOutputY
    ensures up.area == c.area && up.signalSum == c.signalSum && up.sizeMm == c.sizeMm && up.isEdge == c.isEdge
  {
    var mid := Middle(cfg, slots, contacts);
    up := UpEvent(mid[id - 1], id);
    UpIsListed(cfg, mid, |mid|, id);
  }
}
