/** One id through the gesture machine: what is reported for it over whole runs. */
module GestureLife {
  import opened EngineTypes
  import opened GestureModel

  /** What a frame brings for one id: nothing, only a lifted contact, or a live contact. */
  datatype Input = Absent | UpOnly | Present(c: Contact)

  datatype Report = Report(event: ReportEvent, x: real, y: real)

  function InputFor(contacts: seq<Contact>, id: int): Input {
    var k := LastIndex(contacts, id);
    if k < 0 then Absent else if contacts[k].state == StateUp then UpOnly else Present(contacts[k])
  }

  function LiveOf(i: Input): Option<Contact> { if i.Present? then Some(i.c) else None }

  /** The report a contact of the slot's id carries after the second phase. */
  function Shown(cfg: Config, slot: Slot): seq<Report> {
    if slot.phase == Idle
      || (slot.phase == PressCandidate && slot.stableFrames < Wrap16(cfg.pressCandidateFrames)) then []
    else [Report(if slot.phase == PressCandidate then ReportDown else ReportMove, slot.lastOutputX, slot.lastOutputY)]
  }

  function FrameReports(cfg: Config, slot: Slot, i: Input): seq<Report> {
    var mid := Advanced(cfg, slot, LiveOf(i));
    (if i.Absent? then [] else Shown(cfg, mid))
    + (if Expired(cfg, mid) then [Report(ReportUp, mid.lastOutputX, mid.lastOutputY)] else [])
  }

  function Next(cfg: Config, slot: Slot, i: Input): Slot { Settled(cfg, Advanced(cfg, slot, LiveOf(i))) }

  function SlotAfter(cfg: Config, ins: seq<Input>): Slot {
    if |ins| == 0 then RESET else Next(cfg, SlotAfter(cfg, ins[..|ins| - 1]), ins[|ins| - 1])
  }

  /** Everything reported for the id over a run. */
  function Word(cfg: Config, ins: seq<Input>): seq<Report> {
    if |ins| == 0 then []
    else Word(cfg, ins[..|ins| - 1]) + FrameReports(cfg, SlotAfter(cfg, ins[..|ins| - 1]), ins[|ins| - 1])
  }

  lemma OneMoreInput(cfg: Config, ins: seq<Input>, i: Input)
    ensures SlotAfter(cfg, ins + [i]) == Next(cfg, SlotAfter(cfg, ins), i)
    ensures Word(cfg, ins + [i]) == Word(cfg, ins) + FrameReports(cfg, SlotAfter(cfg, ins), i)
  {
    assert (ins + [i])[..|ins|] == ins;
  }

  /** What is reported stays reported. */
  lemma {:induction false} WordGrows(cfg: Config, ins: seq<Input>, n: nat)
    requires n <= |ins|
    ensures Word(cfg, ins[..n]) <= Word(cfg, ins)
  {
    if n == |ins| {
      assert ins[..n] == ins;
    } else {
      WordGrows(cfg, ins[..|ins| - 1], n);
      assert ins[..|ins| - 1][..n] == ins[..n];
    }
  }

  // ----- the slots do not interfere -----

  function ReportOf(c: Contact): seq<Report> {
    if c.isReported then [Report(c.reportEvent, c.x, c.y)] else []
  }

  function ReportsOf(out: seq<Contact>, id: int): seq<Report> {
    if |out| == 0 then []
    else
      var c := out[|out| - 1];
      ReportsOf(out[..|out| - 1], id) + if c.id == id then ReportOf(c) else []
  }

  lemma {:induction false} ReportsOfConcat(a: seq<Contact>, b: seq<Contact>, id: int)
    ensures ReportsOf(a + b, id) == ReportsOf(a, id) + ReportsOf(b, id)
  {
    if |b| == 0 {
      assert a + b == a;
    } else {
      ReportsOfConcat(a, b[..|b| - 1], id);
      assert (a + b)[..|a + b| - 1] == a + b[..|b| - 1];
    }
  }

  lemma {:induction false} ReportsOfNone(out: seq<Contact>, id: int)
    requires forall k :: 0 <= k < |out| ==> out[k].id != id
    ensures ReportsOf(out, id) == []
  {
    if |out| > 0 { ReportsOfNone(out[..|out| - 1], id); }
  }

  lemma {:induction false} ReportsOfOne(out: seq<Contact>, k: int, id: int)
    requires 0 <= k < |out| && out[k].id == id
    requires forall j :: 0 <= j < |out| && j != k ==> out[j].id != id
    ensures ReportsOf(out, id) == ReportOf(out[k])
  {
    if k == |out| - 1 { ReportsOfNone(out[..k], id); } else { ReportsOfOne(out[..|out| - 1], k, id); }
  }

  lemma {:induction false} ReportsOfUps(cfg: Config, mid: seq<Slot>, n: nat, id: int)
    requires n <= |mid| && 1 <= id <= |mid|
    ensures ReportsOf(UpEvents(cfg, mid, n), id) ==
            if id <= n && Expired(cfg, mid[id - 1])
            then [Report(ReportUp, mid[id - 1].lastOutputX, mid[id - 1].lastOutputY)] else []
  {
    if n > 0 {
      ReportsOfUps(cfg, mid, n - 1, id);
      var up := if Expired(cfg, mid[n - 1]) then [UpEvent(mid[n - 1], n)] else [];
      ReportsOfConcat(UpEvents(cfg, mid, n - 1), up, id);
      if Expired(cfg, mid[n - 1]) {
        if n == id { ReportsOfOne(up, 0, id); } else { ReportsOfNone(up, id); }
      }
    }
  }

  lemma LiveOfInput(contacts: seq<Contact>, id: int)
    ensures LiveOf(InputFor(contacts, id)) == LiveContact(contacts, id)
  {
  }

  lemma RewrittenContact(cfg: Config, mid: seq<Slot>, c: Contact)
    ensures RewrittenBy(cfg, mid, c).id == c.id
    ensures 1 <= c.id <= |mid| ==> ReportOf(RewrittenBy(cfg, mid, c)) == Shown(cfg, mid[c.id - 1])
  {
  }

  /** The only place an id can stand in a frame is the index of its last contact. */
  lemma OnlyIndex(contacts: seq<Contact>, ids: seq<Contact>, id: int)
    requires forall i, j :: 0 <= i < j < |contacts| ==> contacts[i].id != contacts[j].id
    requires |ids| == |contacts| && forall j :: 0 <= j < |ids| ==> ids[j].id == contacts[j].id
    ensures var k := LastIndex(contacts, id);
            (k >= 0 ==> ids[k].id == id) && forall j :: 0 <= j < |ids| && j != k ==> ids[j].id != id
  {
  }

  /** What the rewritten contacts report for an id comes from its slot. */
  lemma ReportsOfRewritten(cfg: Config, mid: seq<Slot>, contacts: seq<Contact>, id: int)
    requires 1 <= id <= |mid| && forall i, j :: 0 <= i < j < |contacts| ==> contacts[i].id != contacts[j].id
    ensures ReportsOf(RewrittenAll(cfg, mid, contacts), id) ==
            if LastIndex(contacts, id) < 0 then [] else Shown(cfg, mid[id - 1])
  {
    var rewritten, k := RewrittenAll(cfg, mid, contacts), LastIndex(contacts, id);
    forall j | 0 <= j < |rewritten| ensures rewritten[j].id == contacts[j].id {
      RewrittenContact(cfg, mid, contacts[j]);
    }
    OnlyIndex(contacts, rewritten, id);
    if k < 0 {
      ReportsOfNone(rewritten, id);
    } else {
      ReportsOfOne(rewritten, k, id);
      RewrittenContact(cfg, mid, contacts[k]);
    }
  }

  /** With distinct ids, what a frame reports for an id depends on its own slot and contact alone. */
  lemma FrameSplitsById(cfg: Config, slots: seq<Slot>, contacts: seq<Contact>, id: int)
    requires |slots| == SLOTS && 1 <= id <= SLOTS
    requires forall i, j :: 0 <= i < j < |contacts| ==> contacts[i].id != contacts[j].id
    ensures ReportsOf(Output(cfg, slots, contacts), id) == FrameReports(cfg, slots[id - 1], InputFor(contacts, id))
    ensures After(cfg, slots, contacts)[id - 1] == Next(cfg, slots[id - 1], InputFor(contacts, id))
  {
    var mid := Middle(cfg, slots, contacts);
    ReportsOfConcat(RewrittenAll(cfg, mid, contacts), UpEvents(cfg, mid, |mid|), id);
    ReportsOfRewritten(cfg, mid, contacts, id);
    ReportsOfUps(cfg, mid, |mid|, id);
    LiveOfInput(contacts, id);
  }

  function SlotsAfter(cfg: Config, frames: seq<seq<Contact>>): (slots: seq<Slot>)
    ensures |slots| == SLOTS
  {
    if |frames| == 0 then seq(SLOTS, _ => RESET)
    else After(cfg, SlotsAfter(cfg, frames[..|frames| - 1]), frames[|frames| - 1])
  }

  /** Everything the machine reports for an id over a run of frames. */
  function RunReports(cfg: Config, frames: seq<seq<Contact>>, id: int): seq<Report> {
    if |frames| == 0 then []
    else
      var n := |frames| - 1;
      RunReports(cfg, frames[..n], id) + ReportsOf(Output(cfg, SlotsAfter(cfg, frames[..n]), frames[n]), id)
  }

  function Inputs(frames: seq<seq<Contact>>, id: int): (ins: seq<Input>)
    ensures |ins| == |frames| && forall n :: 0 <= n < |ins| ==> ins[n] == InputFor(frames[n], id)
  {
    seq(|frames|, n requires 0 <= n < |frames| => InputFor(frames[n], id))
  }

  ghost predicate DistinctFrames(frames: seq<seq<Contact>>) {
    forall n :: 0 <= n < |frames| ==> forall i, j :: 0 <= i < j < |frames[n]| ==> frames[n][i].id != frames[n][j].id
  }

  /** Over whole runs the machine is twenty independent slots. */
  lemma {:induction false} RunSplitsById(cfg: Config, frames: seq<seq<Contact>>, id: int)
    requires DistinctFrames(frames) && 1 <= id <= SLOTS
    ensures SlotsAfter(cfg, frames)[id - 1] == SlotAfter(cfg, Inputs(frames, id))
    ensures RunReports(cfg, frames, id) == Word(cfg, Inputs(frames, id))
  {
    if |frames| > 0 {
      var n := |frames| - 1;
      RunSplitsById(cfg, frames[..n], id);
      assert Inputs(frames, id)[..n] == Inputs(frames[..n], id);
      FrameSplitsById(cfg, SlotsAfter(cfg, frames[..n]), frames[n], id);
    }
  }

  // ----- what every frame keeps -----

  /** A slot waiting for release was a press candidate and is still inside its grace window; outside
      dragging the output is locked to the anchor. */
  ghost predicate SlotOk(cfg: Config, slot: Slot) {
    && (slot.phase == ReleasePending ==>
          slot.prevPhase == PressCandidate && 1 <= slot.missingFrames <= cfg.releasePendingFrames)
    && (slot.phase in {PressCandidate, LongPressHold, ReleasePending} ==>
          slot.lastOutputX == slot.anchorX && slot.lastOutputY == slot.anchorY)
  }

  lemma NextKeepsSlotOk(cfg: Config, slot: Slot, i: Input)
    requires cfg.Valid() && SlotOk(cfg, slot)
    ensures SlotOk(cfg, Next(cfg, slot, i))
  {
  }

  lemma {:induction false} SlotAlwaysOk(cfg: Config, ins: seq<Input>)
    requires cfg.Valid()
    ensures SlotOk(cfg, SlotAfter(cfg, ins))
  {
    if |ins| > 0 {
      SlotAlwaysOk(cfg, ins[..|ins| - 1]);
      NextKeepsSlotOk(cfg, SlotAfter(cfg, ins[..|ins| - 1]), ins[|ins| - 1]);
    }
  }

  /** A drag or a long press ends in the very frame its contact vanishes, whatever the grace. */
  lemma DragEndsAtOnce(cfg: Config, slot: Slot, i: Input)
    requires cfg.Valid() && slot.phase in {Dragging, LongPressHold} && !i.Present?
    ensures Next(cfg, slot, i) == RESET.(upEmitted := true)
    ensures var r := FrameReports(cfg, slot, i);
            |r| >= 1 && r[|r| - 1] == Report(ReportUp, slot.lastOutputX, slot.lastOutputY)
  {
  }

  function Nothing(k: nat): (s: seq<Input>)
    ensures |s| == k && forall n :: 0 <= n < k ==> s[n] == Absent
  {
    seq(k, _ => Absent)
  }

  /** The slot of press candidate `s` after it has been missing for `k` frames. */
  ghost predicate MissingFor(cfg: Config, s: Slot, k: nat, t: Slot) {
    if k == 0 then t == s
    else if k <= cfg.releasePendingFrames then
      t == s.(prevPhase := PressCandidate, phase := ReleasePending, missingFrames := k)
    else t.phase == Idle
  }

  lemma MissOnce(cfg: Config, s: Slot, k: nat, t: Slot)
    requires cfg.Valid() && s.phase == PressCandidate && MissingFor(cfg, s, k, t)
    ensures MissingFor(cfg, s, k + 1, Next(cfg, t, Absent))
    ensures FrameReports(cfg, t, Absent) ==
            if k == cfg.releasePendingFrames then [Report(ReportUp, s.lastOutputX, s.lastOutputY)] else []
  {
  }

  /** Slot `t` and reports `w` when press candidate `s`, with `w0` reported, has been missing for `k` frames. */
  ghost predicate Ending(cfg: Config, s: Slot, w0: seq<Report>, k: nat, t: Slot, w: seq<Report>) {
    && MissingFor(cfg, s, k, t)
    && w == if k <= cfg.releasePendingFrames then w0 else w0 + [Report(ReportUp, s.lastOutputX, s.lastOutputY)]
  }

  lemma EndsOneLater(cfg: Config, s: Slot, w0: seq<Report>, k: nat, t: Slot, w: seq<Report>)
    requires cfg.Valid() && s.phase == PressCandidate && Ending(cfg, s, w0, k, t, w)
    ensures Ending(cfg, s, w0, k + 1, Next(cfg, t, Absent), w + FrameReports(cfg, t, Absent))
  {
    MissOnce(cfg, s, k, t);
  }

  lemma {:induction false} EndingAfter(cfg: Config, ins: seq<Input>, m: nat, s: Slot, w0: seq<Report>)
    requires cfg.Valid() && m <= |ins| && forall n :: m <= n < |ins| ==> ins[n] == Absent
    requires SlotAfter(cfg, ins[..m]) == s && s.phase == PressCandidate && Word(cfg, ins[..m]) == w0
    ensures Ending(cfg, s, w0, |ins| - m, SlotAfter(cfg, ins), Word(cfg, ins))
  {
    if m == |ins| {
      assert ins[..m] == ins;
    } else {
      var before := ins[..|ins| - 1];
      assert before[..m] == ins[..m];
      EndingAfter(cfg, before, m, s, w0);
      EndsOneLater(cfg, s, w0, |before| - m, SlotAfter(cfg, before), Word(cfg, before));
    }
  }

  /** A press candidate that goes missing reports exactly one Up, after exactly grace + 1 missing frames. */
  lemma PressEndsAfterGrace(cfg: Config, ins: seq<Input>, k: nat)
    requires cfg.Valid() && SlotAfter(cfg, ins).phase == PressCandidate
    ensures MissingFor(cfg, SlotAfter(cfg, ins), k, SlotAfter(cfg, ins + Nothing(k)))
    ensures var s := SlotAfter(cfg, ins);
            Word(cfg, ins + Nothing(k)) == Word(cfg, ins) +
              if k <= cfg.releasePendingFrames then [] else [Report(ReportUp, s.lastOutputX, s.lastOutputY)]
  {
    var all := ins + Nothing(k);
    assert all[..|ins|] == ins;
    EndingAfter(cfg, all, |ins|, SlotAfter(cfg, ins), Word(cfg, ins));
  }

  ghost predicate HasUp(r: seq<Report>) { exists k :: 0 <= k < |r| && r[k].event == ReportUp }

  /** The frame after an Up is silent for that id. */
  lemma SilentAfterUp(cfg: Config, slot: Slot, i: Input, j: Input)
    requires cfg.Valid() && SlotOk(cfg, slot) && HasUp(FrameReports(cfg, slot, i))
    ensures FrameReports(cfg, Next(cfg, slot, i), j) == []
  {
  }

  // ----- the language of reported events -----

  ghost predicate Follows(a: ReportEvent, b: ReportEvent) {
    match a
    case ReportDown => b in {ReportDown, ReportMove, ReportUp}
    case ReportMove => b in {ReportMove, ReportUp}
    case ReportUp => b == ReportDown
    case _ => false
  }

  /** Prefixes of (Down+ Move* Up)*. */
  ghost predicate WellFormed(w: seq<Report>) {
    && (|w| > 0 ==> w[0].event == ReportDown)
    && forall k :: 0 <= k < |w| - 1 ==> Follows(w[k].event, w[k + 1].event)
  }

  function LastEvent(w: seq<Report>): ReportEvent { if |w| == 0 then ReportUp else w[|w| - 1].event }

  ghost predicate UpFree(ins: seq<Input>) { forall n :: 0 <= n < |ins| ==> !ins[n].UpOnly? }

  /** The phase at a frame boundary fixes the last event reported. */
  ghost predicate PhaseTells(slot: Slot, w: seq<Report>) {
    match slot.phase
    case Idle => LastEvent(w) == ReportUp
    case PressCandidate => LastEvent(w) == ReportDown
    case ReleasePending => LastEvent(w) == ReportDown
    case _ => LastEvent(w) == ReportMove
  }

  lemma AppendWellFormed(w: seq<Report>, r: seq<Report>)
    requires WellFormed(w) && |r| <= 2
    requires |r| >= 1 ==> Follows(LastEvent(w), r[0].event)
    requires |r| == 2 ==> Follows(r[0].event, r[1].event)
    ensures WellFormed(w + r)
  {
  }

  /** A lifted contact meets a slot that is idle or releases in this very frame. */
  ghost predicate SafeUp(cfg: Config, slot: Slot, i: Input) {
    i.UpOnly? ==>
      || cfg.releasePendingFrames == 0 || slot.phase == Idle
      || (slot.phase == ReleasePending && slot.missingFrames == cfg.releasePendingFrames)
  }

  /** Lifted contacts only ever come when it is safe. */
  ghost predicate SafeUps(cfg: Config, ins: seq<Input>) {
    forall n: nat {:trigger ins[n]} :: n < |ins| ==> SafeUp(cfg, SlotAfter(cfg, ins[..n]), ins[n])
  }

  lemma SafeUpsBefore(cfg: Config, ins: seq<Input>, n: nat)
    requires SafeUps(cfg, ins) && n <= |ins|
    ensures SafeUps(cfg, ins[..n])
  {
    forall k: nat | k < n ensures SafeUp(cfg, SlotAfter(cfg, ins[..n][..k]), ins[..n][k]) {
      assert ins[..n][..k] == ins[..k] && ins[..n][k] == ins[k];
    }
  }

  /** With one press frame the reports over any run stay in the language as long as lifted contacts are safe. */
  lemma {:induction false} LanguageHolds(cfg: Config, ins: seq<Input>)
    requires cfg.Valid() && cfg.pressCandidateFrames == 1 && SafeUps(cfg, ins)
    ensures WellFormed(Word(cfg, ins)) && PhaseTells(SlotAfter(cfg, ins), Word(cfg, ins))
  {
    if |ins| > 0 {
      var n := |ins| - 1;
      SafeUpsBefore(cfg, ins, n);
      LanguageHolds(cfg, ins[..n]);
      SlotAlwaysOk(cfg, ins[..n]);
      var slot, w, i := SlotAfter(cfg, ins[..n]), Word(cfg, ins[..n]), ins[n];
      assert SafeUp(cfg, slot, i);
      LanguageStep(cfg, slot, i, w);
      AppendWellFormed(w, FrameReports(cfg, slot, i));
    }
  }

  /** The reports of a frame continue those before it, and the new phase tells the last of them. */
  ghost predicate Continues(cfg: Config, slot: Slot, i: Input, w: seq<Report>) {
    var r := FrameReports(cfg, slot, i);
    && |r| <= 2
    && (|r| >= 1 ==> Follows(LastEvent(w), r[0].event))
    && (|r| == 2 ==> Follows(r[0].event, r[1].event))
    && PhaseTells(Next(cfg, slot, i), w + r)
  }

  lemma TouchContinues(cfg: Config, slot: Slot, i: Input, w: seq<Report>)
    requires cfg.Valid() && cfg.pressCandidateFrames == 1 && SlotOk(cfg, slot) && PhaseTells(slot, w) && i.Present?
    ensures Continues(cfg, slot, i, w)
  {
  }

  lemma LossContinues(cfg: Config, slot: Slot, i: Input, w: seq<Report>)
    requires cfg.Valid() && cfg.pressCandidateFrames == 1 && SlotOk(cfg, slot) && PhaseTells(slot, w)
    requires !i.Present? && SafeUp(cfg, slot, i)
    ensures Continues(cfg, slot, i, w)
  {
  }

  lemma LanguageStep(cfg: Config, slot: Slot, i: Input, w: seq<Report>)
    requires cfg.Valid() && cfg.pressCandidateFrames == 1 && SlotOk(cfg, slot) && SafeUp(cfg, slot, i)
    requires PhaseTells(slot, w)
    ensures Continues(cfg, slot, i, w)
  {
    if i.Present? { TouchContinues(cfg, slot, i, w); } else { LossContinues(cfg, slot, i, w); }
  }

  // ----- reported positions -----

  function SquaredOffset(r: Report, c: Contact): real { DistanceSq(c.x, c.y, r.x, r.y) }

  /** Every Down or Move reported with a live contact lies within the drag threshold of it. */
  ghost predicate Close(cfg: Config, slot: Slot, i: Input) {
    i.Present? ==>
      var r := FrameReports(cfg, slot, i);
      forall k :: 0 <= k < |r| && r[k].event != ReportUp ==>
        SquaredOffset(r[k], i.c) <= cfg.dragThreshold * cfg.dragThreshold
  }

  lemma CloseUnlessWaiting(cfg: Config, slot: Slot, i: Input)
    requires cfg.Valid() && SlotOk(cfg, slot) && slot.phase != ReleasePending
    ensures Close(cfg, slot, i)
  {
  }

  /** While a press candidate or a long press lasts, the output is the anchor, and the anchor stays
      where the contact first came down. */
  lemma AnchorLocked(cfg: Config, slot: Slot, i: Input)
    requires cfg.Valid() && SlotOk(cfg, slot)
    ensures var n := Next(cfg, slot, i);
      && (n.phase in {PressCandidate, LongPressHold} ==> n.lastOutputX == n.anchorX && n.lastOutputY == n.anchorY)
      && (slot.phase == Idle && n.phase == PressCandidate ==> i.Present? && n.anchorX == i.c.x && n.anchorY == i.c.y)
      && (slot.phase != Idle && n.phase != Idle ==> n.anchorX == slot.anchorX && n.anchorY == slot.anchorY)
  {
  }

  function LastPosition(w: seq<Report>): (real, real) {
    if |w| == 0 then (0.0, 0.0) else (w[|w| - 1].x, w[|w| - 1].y)
  }

  /** Every Up carries the position of the report before it. */
  ghost predicate UpsRepeatPositions(w: seq<Report>) {
    forall k :: 0 <= k < |w| && w[k].event == ReportUp ==> k > 0 && w[k].x == w[k - 1].x && w[k].y == w[k - 1].y
  }

  /** The reports of a frame keep the position of an active slot, and an Up repeats it. */
  ghost predicate KeepsPosition(cfg: Config, slot: Slot, i: Input, w: seq<Report>) {
    var r, n := FrameReports(cfg, slot, i), Next(cfg, slot, i);
    && (n.phase != Idle ==> |w + r| > 0 && LastPosition(w + r) == (n.lastOutputX, n.lastOutputY))
    && (|r| > 0 && r[0].event == ReportUp ==> |w| > 0 && LastPosition(w) == (r[0].x, r[0].y))
    && (forall k :: 1 <= k < |r| && r[k].event == ReportUp ==> r[k].x == r[k - 1].x && r[k].y == r[k - 1].y)
  }

  lemma TouchKeepsPosition(cfg: Config, slot: Slot, i: Input, w: seq<Report>)
    requires cfg.Valid() && cfg.pressCandidateFrames == 1 && SlotOk(cfg, slot) && i.Present?
    requires slot.phase != Idle ==> |w| > 0 && LastPosition(w) == (slot.lastOutputX, slot.lastOutputY)
    ensures KeepsPosition(cfg, slot, i, w)
  {
  }

  lemma LossKeepsPosition(cfg: Config, slot: Slot, i: Input, w: seq<Report>)
    requires cfg.Valid() && cfg.pressCandidateFrames == 1 && SlotOk(cfg, slot) && !i.Present?
    requires slot.phase != Idle ==> |w| > 0 && LastPosition(w) == (slot.lastOutputX, slot.lastOutputY)
    ensures KeepsPosition(cfg, slot, i, w)
  {
  }

  lemma AppendRepeats(w: seq<Report>, r: seq<Report>)
    requires UpsRepeatPositions(w)
    requires |r| > 0 && r[0].event == ReportUp ==> |w| > 0 && LastPosition(w) == (r[0].x, r[0].y)
    requires forall k :: 1 <= k < |r| && r[k].event == ReportUp ==> r[k].x == r[k - 1].x && r[k].y == r[k - 1].y
    ensures UpsRepeatPositions(w + r)
  {
    var a := w + r;
    forall k | 0 <= k < |a| && a[k].event == ReportUp ensures k > 0 && a[k].x == a[k - 1].x && a[k].y == a[k - 1].y {
      if k < |w| {
        assert a[k] == w[k] && a[k - 1] == w[k - 1];
      } else {
        var j := k - |w|;
        assert a[k] == r[j];
        if j > 0 { assert a[k - 1] == r[j - 1]; } else { assert a[k - 1] == w[|w| - 1]; }
      }
    }
  }

  lemma {:induction false} UpRepeatsLastPosition(cfg: Config, ins: seq<Input>)
    requires cfg.Valid() && cfg.pressCandidateFrames == 1
    ensures UpsRepeatPositions(Word(cfg, ins))
    ensures var s, w := SlotAfter(cfg, ins), Word(cfg, ins);
            s.phase != Idle ==> |w| > 0 && LastPosition(w) == (s.lastOutputX, s.lastOutputY)
  {
    if |ins| > 0 {
      var n := |ins| - 1;
      var before, i := ins[..n], ins[n];
      UpRepeatsLastPosition(cfg, before);
      SlotAlwaysOk(cfg, before);
      var slot, w := SlotAfter(cfg, before), Word(cfg, before);
      if i.Present? { TouchKeepsPosition(cfg, slot, i, w); } else { LossKeepsPosition(cfg, slot, i, w); }
      AppendRepeats(w, FrameReports(cfg, slot, i));
    }
  }
}
