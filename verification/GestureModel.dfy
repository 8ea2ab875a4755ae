/** The five-phase gesture slot, and what one frame does to all twenty of them. */
module GestureModel {
  import opened EngineTypes

  datatype Phase = Idle | PressCandidate | Dragging | LongPressHold | ReleasePending

  const SLOTS: nat := 20
  const U16: int := 65536

  /** Sixteen-bit counters wrap. */
  function Wrap16(n: int): int { n % U16 }

  datatype Slot = Slot(
    phase: Phase, prevPhase: Phase, anchorX: real, anchorY: real,
    lastTrackedX: real, lastTrackedY: real, lastOutputX: real, lastOutputY: real,
    ageFrames: int, missingFrames: int, stableFrames: int,
    sizeMm: real, signalSum: int, area: int, isEdge: bool, quickTapEligible: bool, upEmitted: bool)

  const RESET := Slot(Idle, Idle, 0.0, 0.0, 0.0, 0.0, 0.0, 0.0, 0, 0, 0, 0.0, 0, 0, false, true, false)

  datatype Config = Config(
    pressCandidateFrames: int, pressCandidateMinSignal: int, pressCandidateMinSizeMm: real,
    dragThreshold: real, longPressFrames: int, longPressMoveTolerance: real, releasePendingFrames: int)
  {
    /** The ranges the configuration loader clamps to. */
    predicate Valid() {
      && 1 <= pressCandidateFrames <= 30 && pressCandidateMinSignal >= 0 && pressCandidateMinSizeMm >= 0.0
      && dragThreshold >= 0.01 && 1 <= longPressFrames <= 300 && longPressMoveTolerance >= 0.01
      && 0 <= releasePendingFrames <= 30
    }
  }

  function Far(slot: Slot, c: Contact, limit: real): bool {
    DistanceSq(c.x, c.y, slot.anchorX, slot.anchorY) > limit * limit
  }

  /** Feature snapshot taken from every tracked contact. */
  function Tracked(slot: Slot, c: Contact): Slot {
    slot.(missingFrames := 0, lastTrackedX := c.x, lastTrackedY := c.y,
          sizeMm := c.sizeMm, signalSum := c.signalSum, area := c.area, isEdge := c.isEdge)
  }

  function Stable(cfg: Config, c: Contact): bool {
    && (cfg.pressCandidateMinSignal > 0 ==> c.signalSum >= cfg.pressCandidateMinSignal)
    && (cfg.pressCandidateMinSizeMm > 0.0 ==> c.sizeMm >= cfg.pressCandidateMinSizeMm)
  }

  function Press(slot: Slot, c: Contact): Slot {
    slot.(phase := PressCandidate, anchorX := c.x, anchorY := c.y, lastTrackedX := c.x, lastTrackedY := c.y,
          lastOutputX := c.x, lastOutputY := c.y, ageFrames := 1, missingFrames := 0, stableFrames := 1,
          sizeMm := c.sizeMm, signalSum := c.signalSum, area := c.area, isEdge := c.isEdge, quickTapEligible := true)
  }

  function HoldPress(cfg: Config, slot: Slot, c: Contact): Slot {
    var s := Tracked(slot, c).(ageFrames := Wrap16(slot.ageFrames + 1),
                               stableFrames := if Stable(cfg, c) then Wrap16(slot.stableFrames + 1) else 0,
                               lastOutputX := slot.anchorX, lastOutputY := slot.anchorY);
    if Far(slot, c, cfg.dragThreshold) then
      s.(phase := Dragging, quickTapEligible := false, lastOutputX := c.x, lastOutputY := c.y)
    else if s.ageFrames >= Wrap16(cfg.longPressFrames) && !Far(slot, c, cfg.longPressMoveTolerance) then
      s.(phase := LongPressHold, quickTapEligible := false)
    else s
  }

  function Drag(slot: Slot, c: Contact): Slot {
    Tracked(slot, c).(ageFrames := Wrap16(slot.ageFrames + 1), lastOutputX := c.x, lastOutputY := c.y)
  }

  function HoldLong(cfg: Config, slot: Slot, c: Contact): Slot {
    var s := Tracked(slot, c).(ageFrames := Wrap16(slot.ageFrames + 1));
    if Far(slot, c, cfg.dragThreshold) then s.(phase := Dragging, lastOutputX := c.x, lastOutputY := c.y)
    else s.(lastOutputX := slot.anchorX, lastOutputY := slot.anchorY)
  }

  function Recover(slot: Slot, c: Contact): Slot {
    var s := Tracked(slot, c).(phase := slot.prevPhase);
    if s.phase == Dragging then s.(lastOutputX := c.x, lastOutputY := c.y) else s
  }

  /** Transition of one slot on the live contact of its id, if there is one. */
  function Updated(cfg: Config, slot: Slot, contact: Option<Contact>): Slot {
    match slot.phase
    case Idle => if contact.Some? then Press(slot, contact.value) else slot
    case PressCandidate =>
      if contact.Some? then HoldPress(cfg, slot, contact.value)
      else slot.(prevPhase := PressCandidate, phase := ReleasePending, missingFrames := 1)
    case Dragging =>
      if contact.Some? then Drag(slot, contact.value)
      else slot.(prevPhase := Dragging, phase := ReleasePending, missingFrames := Wrap16(cfg.releasePendingFrames + 1))
    case LongPressHold =>
      if contact.Some? then HoldLong(cfg, slot, contact.value)
      else slot.(prevPhase := LongPressHold, phase := ReleasePending,
        missingFrames := Wrap16(cfg.releasePendingFrames + 1))
    case ReleasePending =>
      if contact.Some? then Recover(slot, contact.value)
      else slot.(missingFrames := Wrap16(slot.missingFrames + 1))
  }

  /** First phase for one slot: an idle slot with a fresh Up behind it sits out one frame. */
  function Advanced(cfg: Config, slot: Slot, contact: Option<Contact>): Slot {
    if slot.phase == Idle && (contact.None? || slot.upEmitted) then slot.(upEmitted := false)
    else Updated(cfg, slot, contact)
  }

  /** Third phase: the grace window is over. */
  function Expired(cfg: Config, slot: Slot): bool {
    slot.phase == ReleasePending && slot.missingFrames > Wrap16(cfg.releasePendingFrames)
  }

  function Settled(cfg: Config, slot: Slot): Slot {
    if Expired(cfg, slot) then RESET.(upEmitted := true) else slot
  }

  /** Second phase: a contact as its slot wants it reported. */
  function Rewritten(cfg: Config, slot: Slot, c: Contact): Contact {
    if slot.phase == Idle || (slot.phase == PressCandidate && slot.stableFrames < Wrap16(cfg.pressCandidateFrames)) then
      c.(isReported := false, reportEvent := ReportIdle)
    else
      c.(isReported := true, reportEvent := if slot.phase == PressCandidate then ReportDown else ReportMove,
         x := slot.lastOutputX, y := slot.lastOutputY)
  }

  function UpEvent(slot: Slot, id: int): Contact {
    BLANK.(id := id, x := slot.lastOutputX, y := slot.lastOutputY, state := StateUp, area := slot.area,
           signalSum := slot.signalSum, sizeMm := slot.sizeMm, isEdge := slot.isEdge, isReported := true,
           reportEvent := ReportUp, lifeFlags := {LifeLiftOff}, reportFlags := 0)
  }

  // ----- all slots -----

  /** Index of the last contact carrying `id`, or -1. */
  function LastIndex(contacts: seq<Contact>, id: int): (k: int)
    ensures -1 <= k < |contacts|
    ensures k >= 0 ==> contacts[k].id == id
    ensures forall j :: k < j < |contacts| ==> contacts[j].id != id
  {
    if |contacts| == 0 then -1
    else if contacts[|contacts| - 1].id == id then |contacts| - 1
    else LastIndex(contacts[..|contacts| - 1], id)
  }

  /** The live contact of `id`: the last one carrying it, unless the tracker already lifted it. */
  function LiveContact(contacts: seq<Contact>, id: int): Option<Contact> {
    var k := LastIndex(contacts, id);
    if k >= 0 && contacts[k].state != StateUp then Some(contacts[k]) else None
  }

  function Middle(cfg: Config, slots: seq<Slot>, contacts: seq<Contact>): (mid: seq<Slot>)
    ensures |mid| == |slots|
    ensures forall i :: 0 <= i < |slots| ==> mid[i] == Advanced(cfg, slots[i], LiveContact(contacts, i + 1))
  {
    seq(|slots|, i requires 0 <= i < |slots| => Advanced(cfg, slots[i], LiveContact(contacts, i + 1)))
  }

  function After(cfg: Config, slots: seq<Slot>, contacts: seq<Contact>): (after: seq<Slot>)
    ensures |after| == |slots|
    ensures forall i :: 0 <= i < |slots| ==>
              after[i] == Settled(cfg, Advanced(cfg, slots[i], LiveContact(contacts, i + 1)))
  {
    var mid := Middle(cfg, slots, contacts);
    seq(|mid|, i requires 0 <= i < |mid| => Settled(cfg, mid[i]))
  }

  function RewrittenBy(cfg: Config, mid: seq<Slot>, c: Contact): Contact {
    if 1 <= c.id <= |mid| then Rewritten(cfg, mid[c.id - 1], c) else c
  }

  function RewrittenAll(cfg: Config, mid: seq<Slot>, contacts: seq<Contact>): (out: seq<Contact>)
    ensures |out| == |contacts| && forall k :: 0 <= k < |out| ==> out[k] == RewrittenBy(cfg, mid, contacts[k])
  {
    seq(|contacts|, k requires 0 <= k < |contacts| => RewrittenBy(cfg, mid, contacts[k]))
  }

  /** Up events of the first `n` slots. */
  function UpEvents(cfg: Config, mid: seq<Slot>, n: nat): seq<Contact>
    requires n <= |mid|
  {
    if n == 0 then []
    else UpEvents(cfg, mid, n - 1) + if Expired(cfg, mid[n - 1]) then [UpEvent(mid[n - 1], n)] else []
  }

  /** The contacts one frame hands on. */
  function Output(cfg: Config, slots: seq<Slot>, contacts: seq<Contact>): seq<Contact> {
    var mid := Middle(cfg, slots, contacts);
    RewrittenAll(cfg, mid, contacts) + UpEvents(cfg, mid, |mid|)
  }
}
