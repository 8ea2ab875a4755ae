/** TouchGestureStateMachine: the object holding the twenty slots. */
module Gesture {
  import opened EngineTypes
  import opened GestureModel

  class TouchGestureStateMachine {
    const cfg: Config
    const slots: array<Slot>

    ghost predicate Valid()
      reads this
    {
      cfg.Valid() && slots.Length == SLOTS
    }

    constructor (cfg: Config)
      requires cfg.Valid()
      ensures Valid() && fresh(slots) && this.cfg == cfg
      ensures forall i :: 0 <= i < SLOTS ==> slots[i] == RESET
    {
      this.cfg := cfg;
      slots := new Slot[SLOTS](_ => RESET);
    }

    /** A press candidate, field by field. */
    method UpdatePress(s: Slot, contact: Option<Contact>) returns (slot: Slot)
      requires s.phase == PressCandidate
      ensures slot == Updated(cfg, s, contact)
    {
      slot := s;
      if contact.None? {
        slot := slot.(prevPhase := PressCandidate, phase := ReleasePending, missingFrames := 1);
        return;
      }
      var c := contact.value;
      slot := Tracked(slot.(ageFrames := Wrap16(slot.ageFrames + 1)), c);
      slot := slot.(stableFrames := if Stable(cfg, c) then Wrap16(slot.stableFrames + 1) else 0);
      slot := slot.(lastOutputX := slot.anchorX, lastOutputY := slot.anchorY);
      if Far(slot, c, cfg.dragThreshold) {
        slot := slot.(phase := Dragging, quickTapEligible := false);
        slot := slot.(lastOutputX := c.x, lastOutputY := c.y);
        return;
      }
      if slot.ageFrames >= Wrap16(cfg.longPressFrames) && !Far(slot, c, cfg.longPressMoveTolerance) {
        slot := slot.(phase := LongPressHold, quickTapEligible := false);
      }
    }

    /** A drag or a long press, field by field. */
    method UpdateHeld(s: Slot, contact: Option<Contact>) returns (slot: Slot)
      requires s.phase in {Dragging, LongPressHold}
      ensures slot == Updated(cfg, s, contact)
    {
      slot := s;
      if contact.None? {
        slot := slot.(prevPhase := slot.phase, phase := ReleasePending);
        slot := slot.(missingFrames := Wrap16(cfg.releasePendingFrames + 1));
        return;
      }
      var c := contact.value;
      slot := Tracked(slot.(ageFrames := Wrap16(slot.ageFrames + 1)), c);
      if slot.phase == Dragging {
        slot := slot.(lastOutputX := c.x, lastOutputY := c.y);
      } else if Far(slot, c, cfg.dragThreshold) {
        slot := slot.(phase := Dragging, lastOutputX := c.x, lastOutputY := c.y);
      } else {
        slot := slot.(lastOutputX := slot.anchorX, lastOutputY := slot.anchorY);
      }
    }

    /** A slot waiting for release, field by field. */
    method UpdateWaiting(s: Slot, contact: Option<Contact>) returns (slot: Slot)
      requires s.phase == ReleasePending
      ensures slot == Updated(cfg, s, contact)
    {
      slot := s;
      if contact.Some? {
        var c := contact.value;
        slot := Tracked(slot.(phase := slot.prevPhase), c);
        if slot.phase == Dragging { slot := slot.(lastOutputX := c.x, lastOutputY := c.y); }
        return;
      }
      slot := slot.(missingFrames := Wrap16(slot.missingFrames + 1));
    }

    /** Transition of one slot. */
    method UpdateSlot(s: Slot, contact: Option<Contact>) returns (slot: Slot)
      ensures slot == Updated(cfg, s, contact)
    {
      slot := s;
      match slot.phase
      case Idle =>
        if contact.Some? { slot := Press(slot, contact.value); }
      case PressCandidate => slot := UpdatePress(s, contact);
      case Dragging | LongPressHold => slot := UpdateHeld(s, contact);
      case ReleasePending => slot := UpdateWaiting(s, contact);
    }

    /** Slot-to-contact map: the last contact of each id, with lifted contacts taken out again. */
    method MapContacts(contacts: seq<Contact>) returns (at: seq<int>)
      ensures |at| == SLOTS
      ensures forall i :: 0 <= i < SLOTS ==> at[i] == -1 || (0 <= at[i] < |contacts| && contacts[at[i]].id == i + 1)
      ensures forall i :: 0 <= i < SLOTS ==>
                LiveContact(contacts, i + 1) == if at[i] >= 0 then Some(contacts[at[i]]) else None
    {
      at := seq(SLOTS, _ => -1);
      for k := 0 to |contacts|
        invariant |at| == SLOTS
        invariant forall i :: 0 <= i < SLOTS ==> at[i] == LastIndex(contacts[..k], i + 1)
      {
        assert contacts[..k + 1][..k] == contacts[..k];
        var idx := contacts[k].id - 1;
        if 0 <= idx < SLOTS { at := at[idx := k]; }
      }
      assert contacts[..|contacts|] == contacts;
      ghost var last := at;
      for i := 0 to SLOTS
        invariant |at| == SLOTS
        invariant forall j :: 0 <= j < SLOTS ==>
                    at[j] == if j < i && last[j] >= 0 && contacts[last[j]].state == StateUp then -1 else last[j]
      {
        if at[i] >= 0 && contacts[at[i]].state == StateUp { at := at[i := -1]; }
      }
    }

    /** First phase. The contact of a slot sitting out its frame is silenced at once. */
    method AdvanceSlots(contacts: seq<Contact>, at: seq<int>) returns (marked: seq<Contact>)
      requires Valid() && |at| == SLOTS
      requires forall i :: 0 <= i < SLOTS ==> at[i] == -1 || (0 <= at[i] < |contacts| && contacts[at[i]].id == i + 1)
      modifies slots
      ensures forall i :: 0 <= i < SLOTS ==>
                slots[i] == Advanced(cfg, old(slots[i]), if at[i] >= 0 then Some(contacts[at[i]]) else None)
      ensures |marked| == |contacts|
      ensures forall k :: 0 <= k < |marked| ==>
                marked[k] == contacts[k]
                || (marked[k] == contacts[k].(isReported := false, reportEvent := ReportIdle)
                    && 1 <= contacts[k].id <= SLOTS && slots[contacts[k].id - 1].phase == Idle)
    {
      marked := contacts;
      for i := 0 to SLOTS
        invariant forall j :: i <= j < SLOTS ==> slots[j] == old(slots[j])
        invariant forall j :: 0 <= j < i ==>
                    slots[j] == Advanced(cfg, old(slots[j]), if at[j] >= 0 then Some(contacts[at[j]]) else None)
        invariant |marked| == |contacts|
        invariant forall k :: 0 <= k < |marked| && !(1 <= contacts[k].id <= i) ==> marked[k] == contacts[k]
        invariant forall k :: 0 <= k < |marked| && 1 <= contacts[k].id <= i ==>
                    marked[k] == contacts[k]
                    || (marked[k] == contacts[k].(isReported := false, reportEvent := ReportIdle)
                        && slots[contacts[k].id - 1].phase == Idle)
      {
        var slot := slots[i];
        var contact := if at[i] >= 0 then Some(marked[at[i]]) else None;
        if slot.phase == Idle && contact.None? {
          if slot.upEmitted { slots[i] := slot.(upEmitted := false); }
          continue;
        }
        if slot.phase == Idle && slot.upEmitted {
          slots[i] := slot.(upEmitted := false);
          if contact.Some? {
            marked := marked[at[i] := marked[at[i]].(isReported := false, reportEvent := ReportIdle)];
          }
          continue;
        }
        slots[i] := UpdateSlot(slot, contact);
      }
    }

    /** Second phase. */
    method RewriteContacts(contacts: seq<Contact>, marked: seq<Contact>) returns (out: seq<Contact>)
      requires Valid() && |marked| == |contacts|
      requires forall k :: 0 <= k < |marked| ==>
                marked[k] == contacts[k]
                || (marked[k] == contacts[k].(isReported := false, reportEvent := ReportIdle)
                    && 1 <= contacts[k].id <= SLOTS && slots[contacts[k].id - 1].phase == Idle)
      ensures out == RewrittenAll(cfg, slots[..], contacts)
    {
      out := marked;
      for k := 0 to |marked|
        invariant |out| == |contacts|
        invariant forall j :: 0 <= j < k ==> out[j] == RewrittenBy(cfg, slots[..], contacts[j])
        invariant forall j :: k <= j < |out| ==> out[j] == marked[j]
      {
        var idx := out[k].id - 1;
        if 0 <= idx < SLOTS { out := out[k := Rewritten(cfg, slots[idx], out[k])]; }
      }
    }

    /** Third phase. */
    method EmitUps(rewritten: seq<Contact>) returns (out: seq<Contact>)
      requires Valid()
      modifies slots
      ensures out == rewritten + UpEvents(cfg, old(slots[..]), SLOTS)
      ensures forall j :: 0 <= j < SLOTS ==> slots[j] == Settled(cfg, old(slots[j]))
    {
      ghost var mid := slots[..];
      out := rewritten;
      for i := 0 to SLOTS
        invariant out == rewritten + UpEvents(cfg, mid, i)
        invariant forall j :: 0 <= j < i ==> slots[j] == Settled(cfg, mid[j])
        invariant forall j :: i <= j < SLOTS ==> slots[j] == mid[j]
      {
        var slot := slots[i];
        if slot.phase != ReleasePending { continue; }
        if slot.missingFrames <= Wrap16(cfg.releasePendingFrames) { continue; }
        out := out + [UpEvent(slot, i + 1)];
        slots[i] := RESET.(upEmitted := true);
      }
    }

    /** One frame: slots advance, contacts are rewritten, and every expired slot emits its Up. */
    method Process(contacts: seq<Contact>) returns (out: seq<Contact>)
      requires Valid()
      modifies slots
      ensures Valid()
      ensures slots[..] == After(cfg, old(slots[..]), contacts)
      ensures out == Output(cfg, old(slots[..]), contacts)
    {
      ghost var before := slots[..];
      var at := MapContacts(contacts);
      var marked := AdvanceSlots(contacts, at);
      assert slots[..] == Middle(cfg, before, contacts);
      out := RewriteContacts(contacts, marked);
      out := EmitUps(out);
    }
  }
}
