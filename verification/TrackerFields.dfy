/** One tracker frame read off the reported contacts and the stored tracks, field by field: which contacts get in,
    what a followed, a new and a waiting track keep, how far a pairing reaches, and what the ghost filter takes. */
module TrackerFields {
  import opened EngineTypes
  import opened Matching
  import opened TrackerModel
  import opened TrackerFrame
  import opened TrackerLife

  // ----- which contacts get in -----

  /** The pen is strong, `c` is close to it and lacks the signal or the area of a deliberate touch. */
  ghost predicate LostToPen(cfg: Config, pen: Pen, c: Contact) {
    var dx, dy := c.x - pen.x, c.y - pen.y;
    && cfg.stylusSuppressLocalEnabled && pen.valid
    && (pen.signalX >= cfg.stylusSuppressPenPeakThreshold || pen.signalY >= cfg.stylusSuppressPenPeakThreshold
        || pen.maxRawPeak >= cfg.stylusSuppressPenPeakThreshold)
    && dx * dx + dy * dy <= cfg.stylusSuppressLocalDistance * cfg.stylusSuppressLocalDistance
    && (c.signalSum < cfg.stylusSuppressTouchSignalKeep || c.area < cfg.stylusSuppressTouchAreaKeep)
  }

  /** `some` is what is left of `all` at the positions `at`, in order. */
  ghost predicate Picks(all: seq<Contact>, some: seq<Contact>, at: seq<int>) {
    && |at| == |some|
    && (forall i :: 0 <= i < |at| ==> 0 <= at[i] < |all| && some[i] == all[at[i]])
    && forall i, j :: 0 <= i < j < |at| ==> at[i] < at[j]
  }

  lemma LostIsNear(cfg: Config, pen: Pen, c: Contact)
    ensures LostToPen(cfg, pen, c) <==> NearPen(cfg, pen, c)
  {
    var dx, dy := c.x - pen.x, c.y - pen.y;
    assert (pen.x - c.x) * (pen.x - c.x) == dx * dx && (pen.y - c.y) * (pen.y - c.y) == dy * dy;
  }

  lemma PicksMore(init: seq<Contact>, c: Contact, some: seq<Contact>, at: seq<int>, keep: bool) returns (more: seq<int>)
    requires Picks(init, some, at)
    ensures Picks(init + [c], if keep then some + [c] else some, more)
    ensures forall k :: k in more <==> k in at || (keep && k == |init|)
  {
    more := if keep then at + [|init|] else at;
  }

  lemma {:induction false} SurvivingMeans(cfg: Config, pen: Pen, all: seq<Contact>) returns (at: seq<int>)
    ensures Picks(all, Surviving(cfg, pen, all), at)
    ensures forall k :: 0 <= k < |all| ==> (k in at <==> !LostToPen(cfg, pen, all[k]))
  {
    if |all| == 0 { return []; }
    var init, c := all[..|all| - 1], all[|all| - 1];
    assert init + [c] == all;
    var before := SurvivingMeans(cfg, pen, init);
    var near := NearPen(cfg, pen, c);
    at := PicksMore(init, c, Surviving(cfg, pen, init), before, !near);
    forall k | 0 <= k < |all| ensures k in at <==> !LostToPen(cfg, pen, all[k]) {
      LostIsNear(cfg, pen, c);
      assert k < |init| ==> init[k] == all[k];
    }
  }

  /** Of the first twenty contacts exactly those the pen does not claim get in, in their order. */
  lemma AdmittedMeans(cfg: Config, frame: Frame) returns (at: seq<int>)
    ensures Picks(frame.contacts, Admitted(cfg, frame), at)
    ensures forall k :: 0 <= k < |frame.contacts| ==>
      (k in at <==> k < MAX_TOUCHES && !LostToPen(cfg, frame.pen, frame.contacts[k]))
  {
    var all := if |frame.contacts| > MAX_TOUCHES then frame.contacts[..MAX_TOUCHES] else frame.contacts;
    at := SurvivingMeans(cfg, frame.pen, all);
    forall k | 0 <= k < |frame.contacts|
      ensures k in at <==> k < MAX_TOUCHES && !LostToPen(cfg, frame.pen, frame.contacts[k])
    {
      if k < |all| { assert all[k] == frame.contacts[k]; }
    }
  }

  // ----- where a reported contact comes from -----

  lemma UnghostedTracks(cfg: Config, b: Build)
    ensures forall t :: t in Unghosted(cfg, b).next ==> t in b.next
    ensures forall c :: c in Unghosted(cfg, b).out ==> c in b.out
  {
    if cfg.rxGhostFilterEnabled && |b.out| > 1 {
      FilteredTracks(b.next, GhostIds(cfg, b.out, |b.out|));
      FilteredContacts(b.out, GhostIds(cfg, b.out, |b.out|));
    }
  }

  lemma LiveIndex(cfg: Config, tracks: seq<Track>, m: seq<int>, live: Build, b: Build, kept: seq<int>, ups: seq<int>,
                  c: Contact, t: Track)
    returns (i: nat)
    requires LiftOk(cfg, tracks, m, live, |tracks|, b, kept, ups) && ContactIds(live.out) == Ids(live.next)
    requires c in b.out && c.state != StateUp && t in b.next && t.id == c.id
    ensures i < |live.out| == |live.next| && live.out[i] == c && live.next[i] == t
  {
    forall n | |live.out| <= n < |b.out| ensures b.out[n].state == StateUp {
      var p := ups[n - |live.out|];
      assert b.out[|live.out| + (n - |live.out|)] == UpContact(Aged(cfg, tracks[p]), p);
    }
    i :| 0 <= i < |b.out| && b.out[i] == c;
    var j :| 0 <= j < |b.next| && b.next[j] == t;
    assert ContactIds(live.out)[i] == live.out[i].id == c.id && b.out[i] == live.out[i];
    assert Ids(live.next)[i] == live.next[i].id && b.next[i] == live.next[i];
    assert Ids(b.next)[i] == c.id && Ids(b.next)[j] == t.id;
    assert i == j;
  }

  /** A live contact of the frame and the track of its id are one entry of the first loop. */
  lemma LivePair(cfg: Config, s: State, frame: Frame, m: seq<int>, always: seq<bool>, live: Build, src: seq<int>,
                 b: Build, kept: seq<int>, ups: seq<int>, c: Contact, t: Track)
    returns (k: nat)
    requires FrameOk(cfg, s, frame, m, always, live, src, b, kept, ups)
    requires c in b.out && c.state != StateUp && t in b.next && t.id == c.id
    ensures k < |m|
    ensures Comes(cfg, AftContext(cfg, s, frame.pen), s.tracks, Admitted(cfg, frame)[k], m[k], always[k], c, t)
  {
    var i := LiveIndex(cfg, s.tracks, m, live, b, kept, ups, c, t);
    k := src[i];
  }

  /** Contact `c` and track `t` of one id came from admitted contact `a`, paired with track `pre`. */
  lemma Origin(cfg: Config, s: State, frame: Frame, out: seq<Contact>, s': State, c: Contact, t: Track)
    returns (m: seq<int>, always: seq<bool>, k: nat)
    requires cfg.liftOffHoldFrames >= 0 && StateOk(cfg, s) && Step(cfg, s, frame, out, s')
    requires c in out && c.state != StateUp && t in s'.tracks && t.id == c.id
    ensures IsMatching(m, |Admitted(cfg, frame)|, |s.tracks|) && k < |m| == |always|
    ensures Paired(cfg, Admitted(cfg, frame), s.tracks, m, always)
    ensures Comes(cfg, AftContext(cfg, s, frame.pen), s.tracks, Admitted(cfg, frame)[k], m[k], always[k], c, t)
  {
    var live, src, b, kept, ups;
    m, always, live, src, b, kept, ups := StepPairs(cfg, s, frame, out, s');
    UnghostedTracks(cfg, b);
    k := LivePair(cfg, s, frame, m, always, live, src, b, kept, ups, c, t);
  }

  // ----- followed tracks -----

  /** `t` goes on with track `was` where contact `c` is, and moves as the contact moved. */
  ghost predicate Moved(was: Track, c: Contact, t: Track) {
    && was.id == c.id && t.x == c.x && t.y == c.y && t.vx == c.x - was.x && t.vy == c.y - was.y
    && t.age == was.age + 1 && t.missed == 0 && t.area == c.area && t.signalSum == c.signalSum
    && t.sizeMm == c.sizeMm >= was.sizeMm && LifeNew !in c.lifeFlags
  }

  lemma ComesMoved(cfg: Config, aft: Aft, tracks: seq<Track>, a: Contact, pre: int, always: bool, c: Contact,
                   t: Track)
    requires -1 <= pre < |tracks| && Comes(cfg, aft, tracks, a, pre, always, c, t)
    ensures c.prevIndex == pre && (pre >= 0 ==> Moved(tracks[pre], c, t))
  {
  }

  /** A contact that goes on with track `was` (the one its id names, at its previous index) leaves a track at its own
      position whose velocity is the way it has come. */
  lemma FollowedMotion(cfg: Config, s: State, frame: Frame, out: seq<Contact>, s': State, c: Contact, t: Track)
    requires cfg.liftOffHoldFrames >= 0 && StateOk(cfg, s) && Step(cfg, s, frame, out, s')
    requires c in out && c.state != StateUp && c.prevIndex >= 0 && t in s'.tracks && t.id == c.id
    ensures c.prevIndex < |s.tracks|
    ensures Moved(s.tracks[c.prevIndex], c, t)
  {
    var m, always, k := Origin(cfg, s, frame, out, s', c, t);
    ComesMoved(cfg, AftContext(cfg, s, frame.pen), s.tracks, Admitted(cfg, frame)[k], m[k], always[k], c, t);
  }

  /** The size a touch of this area and signal is estimated at, never below the fallback size. */
  ghost predicate SizedBy(cfg: Config, area: int, signalSum: int, size: real) {
    var grown := if signalSum > 0 then cfg.cbrt(signalSum as real) * cfg.sizeSignalScale
      else if area > 0 then cfg.sqrt(area as real) * cfg.sizeAreaScale else cfg.fallbackSizeMm;
    size >= cfg.fallbackSizeMm && size >= grown && (size == cfg.fallbackSizeMm || size == grown)
  }

  /** The stored size never shrinks. */
  ghost predicate Grown(cfg: Config, was: Track, t: Track) {
    exists e :: SizedBy(cfg, t.area, t.signalSum, e) && t.sizeMm == if e > was.sizeMm then e else was.sizeMm
  }

  ghost predicate Ripened(was: Track, c: Contact, t: Track) {
    && (c.state == StateDown <==> was.age <= 1 || was.downDebounceFrames > 0)
    && (LifeDebounced in c.lifeFlags <==> was.downDebounceFrames > 0)
    && t.downDebounceFrames == was.downDebounceFrames - (if was.downDebounceFrames > 0 then 1 else 0)
  }

  lemma ComesRipened(cfg: Config, aft: Aft, tracks: seq<Track>, a: Contact, pre: int, always: bool, c: Contact,
                     t: Track)
    requires 0 <= pre < |tracks| && Comes(cfg, aft, tracks, a, pre, always, c, t)
    ensures Ripened(tracks[pre], c, t) && Grown(cfg, tracks[pre], t)
  {
    assert SizedBy(cfg, t.area, t.signalSum, EstimateSizeMm(cfg, a.area, a.signalSum));
  }

  /** It is still a Down while its track is one frame old or has debounce frames left, and every frame uses one up. */
  lemma FollowedState(cfg: Config, s: State, frame: Frame, out: seq<Contact>, s': State, c: Contact, t: Track)
    requires cfg.liftOffHoldFrames >= 0 && StateOk(cfg, s) && Step(cfg, s, frame, out, s')
    requires c in out && c.state != StateUp && c.prevIndex >= 0 && t in s'.tracks && t.id == c.id
    ensures c.prevIndex < |s.tracks|
    ensures Ripened(s.tracks[c.prevIndex], c, t) && Grown(cfg, s.tracks[c.prevIndex], t)
  {
    var m, always, k := Origin(cfg, s, frame, out, s', c, t);
    ComesMoved(cfg, AftContext(cfg, s, frame.pen), s.tracks, Admitted(cfg, frame)[k], m[k], always[k], c, t);
    ComesRipened(cfg, AftContext(cfg, s, frame.pen), s.tracks, Admitted(cfg, frame)[k], m[k], always[k], c, t);
  }

  // ----- silence near the pen -----

  /** The pen was seen within the recent frames. */
  ghost predicate PenRecent(cfg: Config, s: State) {
    cfg.stylusAftEnabled && s.framesSinceActive <= cfg.stylusAftRecentFrames
  }

  ghost predicate CloseToPen(cfg: Config, s: State, c: Contact) {
    var dx, dy := c.x - s.lastX, c.y - s.lastY;
    dx * dx + dy * dy <= cfg.stylusAftRadius * cfg.stylusAftRadius
  }

  ghost predicate PalmLike(cfg: Config, c: Contact) {
    c.area >= cfg.stylusAftPalmAreaThreshold || c.sizeMm >= cfg.stylusAftPalmSizeThresholdMm
  }

  ghost predicate Doubtful(cfg: Config, c: Contact, age: int) {
    || age <= cfg.stylusAftDebounceFrames
    || (c.signalSum < cfg.stylusAftWeakSignalThreshold && c.sizeMm < cfg.stylusAftWeakSizeThresholdMm)
  }

  /** What is kept of the pen: its last valid position, and how long ago that was. */
  lemma PenRemembered(cfg: Config, s: State, frame: Frame, out: seq<Contact>, s': State)
    requires Step(cfg, s, frame, out, s') && !GloballySuppressed(cfg, frame.pen)
    ensures cfg.stylusAftEnabled && frame.pen.valid ==>
      s'.framesSinceActive == 0 && s'.lastX == frame.pen.x && s'.lastY == frame.pen.y
    ensures !(cfg.stylusAftEnabled && frame.pen.valid) ==> s'.lastX == s.lastX && s'.lastY == s.lastY
    ensures cfg.stylusAftEnabled && !frame.pen.valid ==>
      s'.framesSinceActive == s.framesSinceActive + (if s.framesSinceActive < 1000000 then 1 else 0)
    ensures AftContext(cfg, s, frame.pen) ==
            if PenRecent(cfg, s') then Aft(true, s'.lastX, s'.lastY) else Aft(false, 0.0, 0.0)
  {
  }

  /** `c`, seen for the `age`-th time, next to a recent pen with `before` frames of silence pending, leaves `after` of
      them. */
  ghost predicate Silence(cfg: Config, s: State, c: Contact, age: int, before: int, after: int) {
    && (PenRecent(cfg, s) && before > 0 ==> after == before - 1)
    && (PenRecent(cfg, s) && before <= 0 && CloseToPen(cfg, s, c) && PalmLike(cfg, c) ==>
          after == Max(0, cfg.stylusAftPalmSuppressFrames - 1))
    && (PenRecent(cfg, s) && before <= 0 && CloseToPen(cfg, s, c) && !PalmLike(cfg, c) && Doubtful(cfg, c, age) ==>
          after == Max(0, cfg.stylusAftSuppressFrames - 1))
    && (PenRecent(cfg, s) && before <= 0 && !(CloseToPen(cfg, s, c) && (PalmLike(cfg, c) || Doubtful(cfg, c, age))) ==>
          after == before)
    && (!PenRecent(cfg, s) ==> after == before - (if before > 0 then 1 else 0))
  }

  lemma HoldMeans(cfg: Config, s: State, c: Contact, age: int)
    requires cfg.stylusAftEnabled
    ensures var hold := AftHold(cfg, c, age, Aft(true, s.lastX, s.lastY));
      && (hold.Some? <==> CloseToPen(cfg, s, c) && (PalmLike(cfg, c) || Doubtful(cfg, c, age)))
      && (hold.Some? ==> hold.value == if PalmLike(cfg, c) then cfg.stylusAftPalmSuppressFrames
                                       else cfg.stylusAftSuppressFrames)
  {
  }

  lemma ComesSilent(cfg: Config, s: State, tracks: seq<Track>, a: Contact, pre: int, always: bool, c: Contact, t: Track)
    requires 0 <= pre < |tracks|
    requires Comes(cfg, if PenRecent(cfg, s) then Aft(true, s.lastX, s.lastY) else Aft(false, 0.0, 0.0), tracks, a, pre,
                   always, c, t)
    ensures var was := tracks[pre];
      && Silence(cfg, s, c, was.age + 1, was.stylusSuppressFrames, t.stylusSuppressFrames)
      && (!c.isReported <==>
            PenRecent(cfg, s)
            && (was.stylusSuppressFrames > 0
                || (CloseToPen(cfg, s, c) && (PalmLike(cfg, c) || Doubtful(cfg, c, was.age + 1)))))
  {
    if cfg.stylusAftEnabled { HoldMeans(cfg, s, c, tracks[pre].age + 1); }
  }

  /** A followed contact is withheld exactly while the pen was there recently and either an earlier silence still runs
      or the contact is close to the pen and palm-like, weak and small, or too young; the silence it leaves is exact.
      */
  lemma FollowedSilence(cfg: Config, s: State, frame: Frame, out: seq<Contact>, s': State, c: Contact, t: Track)
    requires cfg.liftOffHoldFrames >= 0 && StateOk(cfg, s) && Step(cfg, s, frame, out, s')
    requires c in out && c.state != StateUp && c.prevIndex >= 0 && t in s'.tracks && t.id == c.id
    ensures c.prevIndex < |s.tracks|
    ensures var was := s.tracks[c.prevIndex];
      && Silence(cfg, s', c, was.age + 1, was.stylusSuppressFrames, t.stylusSuppressFrames)
      && (!c.isReported <==>
            PenRecent(cfg, s')
            && (was.stylusSuppressFrames > 0
                || (CloseToPen(cfg, s', c) && (PalmLike(cfg, c) || Doubtful(cfg, c, was.age + 1)))))
  {
    var m, always, k := Origin(cfg, s, frame, out, s', c, t);
    PenRemembered(cfg, s, frame, out, s');
    var a := Admitted(cfg, frame)[k];
    ComesMoved(cfg, AftContext(cfg, s, frame.pen), s.tracks, a, m[k], always[k], c, t);
    ComesSilent(cfg, s', s.tracks, a, m[k], always[k], c, t);
  }

  // ----- new tracks -----

  /** Within two cells of the border of the panel. */
  ghost predicate OnBorder(x: real, y: real) {
    !(2.0 < x < 58.0 && 2.0 < y < 38.0)
  }

  /** Frames a touch of this kind is held back as a Down. */
  ghost function HeldBack(cfg: Config, a: Contact): int {
    var weak := 0 < a.signalSum < cfg.touchDownWeakSignalThreshold;
    var small := 0.0 < a.sizeMm < cfg.touchDownSmallSizeThresholdMm;
    var doubts := (if weak then 1 else 0) + (if small then 1 else 0) + (if OnBorder(a.x, a.y) then 1 else 0);
    cfg.touchDownDebounceFrames
    + (if !cfg.dynamicDebounceEnabled then 0 else if doubts <= cfg.touchDownDebounceMaxExtra then doubts
       else cfg.touchDownDebounceMaxExtra)
  }

  /** Contact `a`, reported as `c`, starts track `t` from rest. */
  ghost predicate Started(cfg: Config, a: Contact, c: Contact, t: Track) {
    && c.x == t.x == a.x && c.y == t.y == a.y && c.area == t.area == a.area && c.signalSum == t.signalSum == a.signalSum
    && t.vx == 0.0 && t.vy == 0.0 && t.age == 1 && t.missed == 0
    && t.sizeMm == c.sizeMm && SizedBy(cfg, a.area, a.signalSum, c.sizeMm)
    && c.state == StateDown && LifeNew in c.lifeFlags && (c.isEdge <==> OnBorder(a.x, a.y))
    && t.downDebounceFrames == HeldBack(cfg, a) - (if HeldBack(cfg, a) > 0 then 1 else 0)
    && !(cfg.touchDownRejectEnabled
         && ((a.signalSum < cfg.touchDownRejectMinSignal && c.sizeMm < cfg.touchDownRejectMinSizeMm)
             || (OnBorder(a.x, a.y) && a.signalSum < cfg.touchDownEdgeRejectMinSignal)))
  }

  /** How long it is silent at first, and whether it is shown. */
  ghost predicate StartsSilent(cfg: Config, s: State, a: Contact, c: Contact, t: Track) {
    && t.stylusSuppressFrames == (
         if PenRecent(cfg, s) && CloseToPen(cfg, s, a) && PalmLike(cfg, a) then
           Max(0, cfg.stylusAftPalmSuppressFrames - 1)
         else if PenRecent(cfg, s) && CloseToPen(cfg, s, a) && Doubtful(cfg, a, 1) then
           Max(0, cfg.stylusAftSuppressFrames - 1)
         else 0)
    && (c.isReported <==> t.stylusSuppressFrames == 0)
  }

  lemma ComesStarted(cfg: Config, aft: Aft, tracks: seq<Track>, a: Contact, always: bool, c: Contact, t: Track)
    requires Comes(cfg, aft, tracks, a, -1, always, c, t)
    ensures Started(cfg, a, c, t) && t.id !in Ids(tracks)
  {
  }

  lemma ComesStartedSilent(cfg: Config, s: State, tracks: seq<Track>, a: Contact, always: bool, c: Contact, t: Track)
    requires Comes(cfg, if PenRecent(cfg, s) then Aft(true, s.lastX, s.lastY) else Aft(false, 0.0, 0.0), tracks, a, -1,
                   always, c, t)
    ensures StartsSilent(cfg, s, a, c, t)
  {
    if cfg.stylusAftEnabled { HoldMeans(cfg, s, a.(isEdge := OnBorder(a.x, a.y)), 1); }
  }

  /** A contact without a previous index comes from an admitted one and starts a track from rest, as a Down. */
  lemma BegunFields(cfg: Config, s: State, frame: Frame, out: seq<Contact>, s': State, c: Contact, t: Track)
    returns (a: Contact)
    requires cfg.liftOffHoldFrames >= 0 && StateOk(cfg, s) && Step(cfg, s, frame, out, s')
    requires c in out && c.state != StateUp && c.prevIndex < 0 && t in s'.tracks && t.id == c.id
    ensures a in Admitted(cfg, frame) && Started(cfg, a, c, t) && StartsSilent(cfg, s', a, c, t)
    ensures c.prevIndex == -1 && c.id !in Ids(s.tracks)
  {
    var m, always, k := Origin(cfg, s, frame, out, s', c, t);
    PenRemembered(cfg, s, frame, out, s');
    a := Admitted(cfg, frame)[k];
    ComesMoved(cfg, AftContext(cfg, s, frame.pen), s.tracks, a, m[k], always[k], c, t);
    ComesStarted(cfg, AftContext(cfg, s, frame.pen), s.tracks, a, always[k], c, t);
    ComesStartedSilent(cfg, s', s.tracks, a, always[k], c, t);
  }

  /** The `n`-th id after `seed` on the ring of twenty. */
  ghost function RingId(seed: int, n: int): int {
    if seed + n <= MAX_TOUCHES then seed + n else seed + n - MAX_TOUCHES
  }

  /** Ids are handed out round the ring: the first one from the seed on that nobody holds. */
  lemma {:induction false} NextFreeId(seed: int, reserved: seq<int>, current: seq<int>, i: nat) returns (n: nat)
    requires 1 <= seed <= MAX_TOUCHES && i <= MAX_TOUCHES && FirstFree(seed, reserved, current, i) != 0
    ensures i <= n < MAX_TOUCHES && FirstFree(seed, reserved, current, i) == RingId(seed, n)
    ensures RingId(seed, n) !in reserved && RingId(seed, n) !in current
    ensures forall j :: i <= j < n ==> RingId(seed, j) in reserved || RingId(seed, j) in current
    decreases MAX_TOUCHES - i, seed
  {
    n := i;
    assert i < MAX_TOUCHES ==> RingId(seed, i) == Candidate(seed, i);
    if Candidate(seed, i) in reserved || Candidate(seed, i) in current {
      n := NextFreeId(seed, reserved, current, i + 1);
    }
  }

  // ----- waiting tracks and lift-offs -----

  /** Track `t` is `was`, unseen for one frame more and at rest. */
  ghost predicate Waited(was: Track, t: Track) {
    && t.id == was.id && t.x == was.x && t.y == was.y && t.vx == 0.0 && t.vy == 0.0 && t.missed == was.missed + 1
    && t.area == was.area && t.signalSum == was.signalSum && t.sizeMm == was.sizeMm && t.age == was.age
    && t.downDebounceFrames == was.downDebounceFrames
    && t.stylusSuppressFrames == was.stylusSuppressFrames - (if was.stylusSuppressFrames > 0 then 1 else 0)
  }

  /** The ghost filter takes no live contact without its track. */
  lemma ContactStays(cfg: Config, b: Build, c: Contact, t: Track)
    requires c in b.out && c.state != StateUp && t in Unghosted(cfg, b).next && t.id == c.id
    ensures c in Unghosted(cfg, b).out
  {
    if cfg.rxGhostFilterEnabled && |b.out| > 1 {
      FilteredTracks(b.next, GhostIds(cfg, b.out, |b.out|));
      FilteredContacts(b.out, GhostIds(cfg, b.out, |b.out|));
    }
  }

  lemma WaitingOf(cfg: Config, tracks: seq<Track>, m: seq<int>, live: Build, b: Build, kept: seq<int>, ups: seq<int>,
                  t: Track)
    returns (was: Track)
    requires LiftOk(cfg, tracks, m, live, |tracks|, b, kept, ups) && ContactIds(live.out) == Ids(live.next)
    requires forall i :: 0 <= i < |live.out| ==> live.out[i].state != StateUp
    requires t in b.next && forall c :: c in b.out && c.id == t.id ==> c.state == StateUp
    ensures was in tracks && Waited(was, t)
  {
    forall i | 0 <= i < |live.next| ensures b.next[i] != t {
      var c := live.out[i];
      assert ContactIds(live.out)[i] == Ids(live.next)[i] && b.out[i] == c && c in b.out && b.next[i] == live.next[i];
    }
    var j :| 0 <= j < |b.next| && b.next[j] == t;
    was := tracks[kept[j - |live.next|]];
    assert b.next[|live.next| + (j - |live.next|)] == Waiting(cfg, was);
  }

  /** A stored track no contact was reported for has waited at its place; the velocity is forgotten. */
  lemma WaitingFields(cfg: Config, s: State, frame: Frame, out: seq<Contact>, s': State, t: Track)
    returns (was: Track)
    requires cfg.liftOffHoldFrames >= 0 && StateOk(cfg, s) && Step(cfg, s, frame, out, s')
    requires t in s'.tracks && forall c :: c in out && c.id == t.id ==> c.state == StateUp
    ensures was in s.tracks && Waited(was, t)
  {
    var m, always, live, src, b, kept, ups := StepPairs(cfg, s, frame, out, s');
    UnghostedTracks(cfg, b);
    forall c | c in b.out && c.id == t.id ensures c.state == StateUp {
      if c.state != StateUp { ContactStays(cfg, b, c, t); }
    }
    was := WaitingOf(cfg, s.tracks, m, live, b, kept, ups, t);
  }

  /** `c` is the lift-off of `was`, where it was last. */
  ghost predicate Ended(was: Track, c: Contact) {
    && was.id == c.id && c.x == was.x && c.y == was.y && c.area == was.area && c.signalSum == was.signalSum
    && c.sizeMm == was.sizeMm && c.isReported && c.reportEvent == ReportUp && (c.isEdge <==> OnBorder(was.x, was.y))
  }

  lemma LiftedOf(cfg: Config, tracks: seq<Track>, m: seq<int>, live: Build, b: Build, kept: seq<int>, ups: seq<int>,
                 c: Contact)
    requires LiftOk(cfg, tracks, m, live, |tracks|, b, kept, ups)
    requires forall i :: 0 <= i < |live.out| ==> live.out[i].state != StateUp
    requires c in b.out && c.state == StateUp
    ensures 0 <= c.prevIndex < |tracks| && Lifts(cfg, tracks[c.prevIndex]) && Ended(tracks[c.prevIndex], c)
  {
    assert forall i :: 0 <= i < |live.out| ==> b.out[i] == live.out[i];
    var i :| 0 <= i < |b.out| && b.out[i] == c;
    var p := ups[i - |live.out|];
    assert b.out[|live.out| + (i - |live.out|)] == UpContact(Aged(cfg, tracks[p]), p);
  }

  /** A lift-off names the track that ended, unseen for longer than the hold, and stands where it was last. */
  lemma LiftedFields(cfg: Config, s: State, frame: Frame, out: seq<Contact>, s': State, c: Contact)
    requires cfg.liftOffHoldFrames >= 0 && StateOk(cfg, s) && Step(cfg, s, frame, out, s')
    requires c in out && c.state == StateUp
    ensures 0 <= c.prevIndex < |s.tracks|
    ensures s.tracks[c.prevIndex].missed == cfg.liftOffHoldFrames && Ended(s.tracks[c.prevIndex], c)
  {
    var m, always, live, src, b, kept, ups := StepPairs(cfg, s, frame, out, s');
    UnghostedTracks(cfg, b);
    LiftedOf(cfg, s.tracks, m, live, b, kept, ups, c);
  }

  // ----- how far a pairing reaches -----

  ghost function Apart(cfg: Config, x: real, y: real, t: Track): real {
    var dx, dy := x - (t.x + t.vx * cfg.predictionScale), y - (t.y + t.vy * cfg.predictionScale);
    dx * dx + dy * dy
  }

  /** Squared reach of the gate: further at the border, and further again there and for small touches. */
  ghost function Reach(cfg: Config, x: real, y: real, size: real, t: Track): real {
    var border := OnBorder(x, y) || OnBorder(t.x, t.y);
    var small := t.sizeMm <= cfg.accBoostSizeMm && size <= cfg.accBoostSizeMm;
    var far := cfg.maxTrackDistance * cfg.maxTrackDistance;
    var wide := if border then far * (cfg.edgeTrackBoost * cfg.edgeTrackBoost) else far;
    if border || small then wide * (cfg.accThresholdBoost * cfg.accThresholdBoost) else wide
  }

  ghost predicate InReach(cfg: Config, c: Contact, t: Track) {
    Apart(cfg, c.x, c.y, t) <= Reach(cfg, c.x, c.y, EstimateSizeMm(cfg, c.area, c.signalSum), t)
  }

  lemma ApartIsDistance(cfg: Config, c: Contact, t: Track)
    ensures Apart(cfg, c.x, c.y, t) == Distance(cfg, c, t) && (TooFar(cfg, c, t) <==> !InReach(cfg, c, t))
  {
  }

  /** `d` is within the distance at which a contact off the border is matched whatever the gate says. */
  ghost predicate AlwaysClose(cfg: Config, d: real) {
    d <= cfg.alwaysMatchDistance * cfg.alwaysMatchDistance && d < FLT_MAX
  }

  /** What the pairing owes a contact: it goes on with a track within reach, or off the border with one within the
      shorter always-match distance; and off the border it stays alone only if every track that close is taken. */
  ghost predicate Fits(cfg: Config, c: Contact, tracks: seq<Track>, m: seq<int>, pre: int, always: bool)
    requires -1 <= pre < |tracks|
  {
    && (pre >= 0 && !always ==> InReach(cfg, c, tracks[pre]))
    && (pre >= 0 && always ==> AlwaysClose(cfg, Apart(cfg, c.x, c.y, tracks[pre])) && !OnBorder(c.x, c.y))
    && (pre < 0 && !OnBorder(c.x, c.y) ==>
          forall p :: 0 <= p < |tracks| && AlwaysClose(cfg, Apart(cfg, c.x, c.y, tracks[p])) ==> p in m)
  }

  lemma RescuedWithin(cfg: Config, contacts: seq<Contact>, tracks: seq<Track>, h: seq<int>, g: seq<int>, m: seq<int>,
                      always: seq<bool>, k: nat)
    requires k < |contacts| && IsMatching(m, |contacts|, |tracks|)
    requires Gated(cfg, contacts, tracks, h, g) && Rescued(cfg, contacts, tracks, g, m, always)
    ensures Fits(cfg, contacts[k], tracks, m, m[k], always[k])
  {
    var c := contacts[k];
    if g[k] >= 0 {
      ApartIsDistance(cfg, c, tracks[m[k]]);
    } else {
      assert Saved(cfg, c, tracks, g + m[..k], m[k], always[k]);
      forall p | 0 <= p < |tracks| ensures Apart(cfg, c.x, c.y, tracks[p]) == CostRow(cfg, c, tracks)[p] {
        ApartIsDistance(cfg, c, tracks[p]);
      }
      forall p | p in g + m[..k] && p >= 0 ensures p in m {
        TakenIsMatched(g, m, k, p);
      }
    }
  }

  lemma TakenIsMatched(g: seq<int>, m: seq<int>, k: nat, p: int)
    requires k < |m| == |g| && p in g + m[..k] && p >= 0
    requires forall c :: 0 <= c < |g| && g[c] >= 0 ==> m[c] == g[c]
    ensures p in m
  {
    if p in g {
      var c :| 0 <= c < |g| && g[c] == p;
      assert m[c] == p;
    }
  }

  lemma PairedWithin(cfg: Config, contacts: seq<Contact>, tracks: seq<Track>, m: seq<int>, always: seq<bool>, k: nat)
    requires Paired(cfg, contacts, tracks, m, always) && k < |contacts|
    ensures IsMatching(m, |contacts|, |tracks|) && |always| == |m| && Fits(cfg, contacts[k], tracks, m, m[k], always[k])
  {
    PairingIsInjective(cfg, contacts, tracks, m, always);
    if |tracks| > 0 {
      var cost := CostMatrix(cfg, contacts, tracks);
      var h: seq<int>, g: seq<int> :|
        && (if cfg.useHungarian then IsOptimal(cost, h) else IsGreedy(cost, h))
        && Gated(cfg, contacts, tracks, h, g)
        && Rescued(cfg, contacts, tracks, g, m, always);
      RescuedWithin(cfg, contacts, tracks, h, g, m, always, k);
    }
  }

  lemma FitsByFields(cfg: Config, a: Contact, c: Contact, tracks: seq<Track>, m: seq<int>, pre: int, always: bool)
    requires -1 <= pre < |tracks| && Fits(cfg, a, tracks, m, pre, always)
    requires c.x == a.x && c.y == a.y && c.area == a.area && c.signalSum == a.signalSum
    ensures Fits(cfg, c, tracks, m, pre, always)
  {
  }

  lemma ComesFlagged(cfg: Config, aft: Aft, tracks: seq<Track>, a: Contact, pre: int, always: bool, c: Contact,
                     t: Track)
    requires -1 <= pre < |tracks| && Comes(cfg, aft, tracks, a, pre, always, c, t)
    ensures c.prevIndex == pre && (pre >= 0 ==> (LifeAlwaysMatch in c.lifeFlags <==> always))
    ensures c.x == a.x && c.y == a.y && c.area == a.area && c.signalSum == a.signalSum
  {
  }

  lemma MatchedIsSeen(cfg: Config, s: State, frame: Frame, m: seq<int>, always: seq<bool>, live: Build, src: seq<int>,
                      b: Build, kept: seq<int>, ups: seq<int>)
    requires FrameOk(cfg, s, frame, m, always, live, src, b, kept, ups)
    ensures forall p :: 0 <= p < |s.tracks| && p in m ==> Sighted(b.out, s.tracks[p].id) == Seen
  {
    forall p | 0 <= p < |s.tracks| && p in m ensures Sighted(b.out, s.tracks[p].id) == Seen {
      var i :| 0 <= i < |live.next| && Ids(live.next)[i] == s.tracks[p].id;
      FateLive(cfg, s, frame, m, always, live, src, b, kept, ups, i);
    }
  }

  /** A reported contact, the pairing `m` behind it, and what the pairing owes it. */
  lemma ReportedFits(cfg: Config, s: State, frame: Frame, out: seq<Contact>, s': State, c: Contact, t: Track)
    returns (m: seq<int>, always: bool)
    requires cfg.liftOffHoldFrames >= 0 && StateOk(cfg, s) && Step(cfg, s, frame, out, s')
    requires c in out && c.state != StateUp && t in s'.tracks && t.id == c.id
    ensures -1 <= c.prevIndex < |s.tracks| && Fits(cfg, c, s.tracks, m, c.prevIndex, always)
    ensures c.prevIndex >= 0 ==> (LifeAlwaysMatch in c.lifeFlags <==> always)
    ensures !MayClear(cfg, frame) ==> forall p :: 0 <= p < |s.tracks| && p in m ==> Sighted(out, s.tracks[p].id) == Seen
  {
    var alwayses, live, src, b, kept, ups;
    m, alwayses, live, src, b, kept, ups := StepPairs(cfg, s, frame, out, s');
    UnghostedTracks(cfg, b);
    var k := LivePair(cfg, s, frame, m, alwayses, live, src, b, kept, ups, c, t);
    always := alwayses[k];
    var a := Admitted(cfg, frame)[k];
    ComesFlagged(cfg, AftContext(cfg, s, frame.pen), s.tracks, a, m[k], always, c, t);
    PairedWithin(cfg, Admitted(cfg, frame), s.tracks, m, alwayses, k);
    FitsByFields(cfg, a, c, s.tracks, m, m[k], always);
    MatchedIsSeen(cfg, s, frame, m, alwayses, live, src, b, kept, ups);
  }

  /** No id jumps: a followed contact is within reach of where its track was expected. */
  lemma FollowedWithin(cfg: Config, s: State, frame: Frame, out: seq<Contact>, s': State, c: Contact, t: Track)
    requires cfg.liftOffHoldFrames >= 0 && StateOk(cfg, s) && Step(cfg, s, frame, out, s')
    requires c in out && c.state != StateUp && c.prevIndex >= 0 && t in s'.tracks && t.id == c.id
    ensures c.prevIndex < |s.tracks|
    ensures LifeAlwaysMatch !in c.lifeFlags ==> InReach(cfg, c, s.tracks[c.prevIndex])
    ensures LifeAlwaysMatch in c.lifeFlags ==>
      AlwaysClose(cfg, Apart(cfg, c.x, c.y, s.tracks[c.prevIndex])) && !OnBorder(c.x, c.y)
  {
    var m, always := ReportedFits(cfg, s, frame, out, s', c, t);
  }

  /** No id is lost for nothing: off the border a new id means that every stored track close by has a contact too. */
  lemma BegunAlone(cfg: Config, s: State, frame: Frame, out: seq<Contact>, s': State, c: Contact, t: Track, p: nat)
    requires cfg.liftOffHoldFrames >= 0 && StateOk(cfg, s) && Step(cfg, s, frame, out, s') && !MayClear(cfg, frame)
    requires c in out && c.state != StateUp && c.prevIndex < 0 && t in s'.tracks && t.id == c.id
    requires p < |s.tracks| && !OnBorder(c.x, c.y) && AlwaysClose(cfg, Apart(cfg, c.x, c.y, s.tracks[p]))
    ensures Sighted(out, s.tracks[p].id) == Seen
  {
    var m, always := ReportedFits(cfg, s, frame, out, s', c, t);
  }

  // ----- the ghost filter -----

  /** `w` is on the receive line of `c`, too weak beside it, and, if the filter spares known touches, still a Down. */
  ghost predicate LooksLikeGhost(cfg: Config, c: Contact, w: Contact) {
    && w.signalSum <= c.signalSum && Abs(Round(c.y) - Round(w.y)) <= cfg.rxGhostLineDelta
    && w.signalSum < Trunc(c.signalSum as real * cfg.rxGhostWeakRatio)
    && (cfg.rxGhostOnlyNew ==> w.state == StateDown)
  }

  lemma GhostOfFirst(cfg: Config, a: Contact, b: Contact)
    requires Filterable(a) && Filterable(b) && b.signalSum <= a.signalSum
    ensures Stronger(a, b) == a && Weaker(a, b) == b && (Ghosts(cfg, a, b) <==> LooksLikeGhost(cfg, a, b))
  {
    assert Stronger(a, b) == a && Weaker(a, b) == b;
  }

  lemma GhostOfSecond(cfg: Config, a: Contact, b: Contact)
    requires Filterable(a) && Filterable(b) && a.signalSum < b.signalSum
    ensures Stronger(a, b) == b && Weaker(a, b) == a && (Ghosts(cfg, a, b) <==> LooksLikeGhost(cfg, b, a))
  {
    assert Stronger(a, b) == b && Weaker(a, b) == a;
  }

  /** After the filter no two live contacts of different strength look like a touch and its ghost. */
  lemma NoGhostLeft(cfg: Config, s: State, frame: Frame, out: seq<Contact>, s': State, c: Contact, w: Contact)
    requires cfg.liftOffHoldFrames >= 0 && StateOk(cfg, s) && Step(cfg, s, frame, out, s') && cfg.rxGhostFilterEnabled
    requires c in out && w in out && c.state != StateUp && w.state != StateUp && w.signalSum < c.signalSum
    ensures !LooksLikeGhost(cfg, c, w)
  {
    var m, always, live, src, b, kept, ups := StepPairs(cfg, s, frame, out, s');
    GhostsAreGone(cfg, b, c, w);
  }

  lemma GhostsAreGone(cfg: Config, b: Build, c: Contact, w: Contact)
    requires ValidIds(ContactIds(b.out)) && cfg.rxGhostFilterEnabled
    requires c in Unghosted(cfg, b).out && w in Unghosted(cfg, b).out && c.state != StateUp && w.state != StateUp
    requires w.signalSum < c.signalSum
    ensures !LooksLikeGhost(cfg, c, w)
  {
    UnghostedTracks(cfg, b);
    var i :| 0 <= i < |b.out| && b.out[i] == c;
    var j :| 0 <= j < |b.out| && b.out[j] == w;
    assert ContactIds(b.out)[i] == c.id && ContactIds(b.out)[j] == w.id;
    var gone := GhostIds(cfg, b.out, |b.out|);
    FilteredContacts(b.out, gone);
    GhostIsGone(cfg, b.out, i, j);
  }

  lemma GhostIsGone(cfg: Config, out: seq<Contact>, i: int, j: int)
    requires 0 <= i < |out| && 0 <= j < |out| && i != j && Filterable(out[i]) && Filterable(out[j])
    requires out[j].signalSum < out[i].signalSum
    ensures LooksLikeGhost(cfg, out[i], out[j]) ==> out[j].id in GhostIds(cfg, out, |out|)
  {
    GhostOfFirst(cfg, out[i], out[j]);
    GhostOfSecond(cfg, out[j], out[i]);
  }

  /** Whatever the filter takes looked like the ghost of another live contact of the frame, itself perhaps taken. */
  lemma GhostHasCause(cfg: Config, s: State, frame: Frame, out: seq<Contact>, s': State, d: int)
    returns (c: Contact, w: Contact)
    requires cfg.liftOffHoldFrames >= 0 && StateOk(cfg, s) && Step(cfg, s, frame, out, s')
    requires !GloballySuppressed(cfg, frame.pen)
    requires !Fate(cfg.liftOffHoldFrames, Missing(s.tracks, d), Sighted(out, d), Missing(s'.tracks, d))
    ensures cfg.rxGhostFilterEnabled && LooksLikeGhost(cfg, c, w) && w.id == d && c.id != d
    ensures c.state != StateUp && w.state != StateUp
    ensures (exists a :: a in Admitted(cfg, frame) && a.y == c.y && a.signalSum == c.signalSum)
    ensures (exists a :: a in Admitted(cfg, frame) && a.y == w.y && a.signalSum == w.signalSum)
  {
    var m, always, live, src, b, kept, ups := StepPairs(cfg, s, frame, out, s');
    FrameKeepsTracks(cfg, s, frame, m, always, live, src, b, kept, ups);
    FateOfId(cfg, s, frame, m, always, live, src, b, kept, ups, d);
    TakenIsGhost(cfg, b, d);
    c, w := GhostPair(cfg, b.out, d);
    AdmittedBehind(cfg, s, frame, m, always, live, src, b, kept, ups, c);
    AdmittedBehind(cfg, s, frame, m, always, live, src, b, kept, ups, w);
  }

  lemma GhostLooks(cfg: Config, a: Contact, b: Contact)
    requires Ghosts(cfg, a, b)
    ensures LooksLikeGhost(cfg, Stronger(a, b), Weaker(a, b))
  {
    if a.signalSum < b.signalSum { GhostOfSecond(cfg, a, b); } else { GhostOfFirst(cfg, a, b); }
  }

  lemma GhostPair(cfg: Config, out: seq<Contact>, d: int) returns (c: Contact, w: Contact)
    requires ValidIds(ContactIds(out)) && d in GhostIds(cfg, out, |out|)
    ensures c in out && w in out && LooksLikeGhost(cfg, c, w) && w.id == d && c.id != d
    ensures c.state != StateUp && w.state != StateUp
  {
    var i, j :| 0 <= i < |out| && i < j < |out| && Ghosts(cfg, out[i], out[j]) && d == Weaker(out[i], out[j]).id;
    c, w := Stronger(out[i], out[j]), Weaker(out[i], out[j]);
    GhostLooks(cfg, out[i], out[j]);
    assert ContactIds(out)[i] != ContactIds(out)[j];
  }

  lemma TakenIsGhost(cfg: Config, b: Build, d: int)
    requires TracksOk(cfg, b.next) && ValidIds(ContactIds(b.out))
    requires !(Sighted(Unghosted(cfg, b).out, d) == Sighted(b.out, d)
               && Missing(Unghosted(cfg, b).next, d) == Missing(b.next, d))
    ensures cfg.rxGhostFilterEnabled && d in GhostIds(cfg, b.out, |b.out|)
  {
    var gone := GhostIds(cfg, b.out, |b.out|);
    UnghostedKeeps(cfg, b, d);
    FilteredContacts(b.out, gone);
    FilteredTracks(b.next, gone);
    GhostFate(cfg, b, Unghosted(cfg, b), gone, d);
  }

  lemma AdmittedBehind(cfg: Config, s: State, frame: Frame, m: seq<int>, always: seq<bool>, live: Build, src: seq<int>,
                       b: Build, kept: seq<int>, ups: seq<int>, c: Contact)
    requires FrameOk(cfg, s, frame, m, always, live, src, b, kept, ups) && c in b.out && c.state != StateUp
    ensures exists a :: a in Admitted(cfg, frame) && a.y == c.y && a.signalSum == c.signalSum
  {
    var n :| 0 <= n < |b.out| && b.out[n] == c;
    assert c.id in ContactIds(b.out) by { assert ContactIds(b.out)[n] == c.id; }
    var j :| 0 <= j < |b.next| && Ids(b.next)[j] == c.id;
    var k := LivePair(cfg, s, frame, m, always, live, src, b, kept, ups, c, b.next[j]);
    ComesFlagged(cfg, AftContext(cfg, s, frame.pen), s.tracks, Admitted(cfg, frame)[k], m[k], always[k], c, b.next[j]);
    assert Admitted(cfg, frame)[k] in Admitted(cfg, frame);
  }

  // ----- where the next id search starts -----

  /** The id after that of the last new contact, or the old seed when there is none. */
  ghost function SeedAfter(seed: int, out: seq<Contact>): int {
    if |out| == 0 then seed
    else if LifeNew in out[|out| - 1].lifeFlags then RingId(out[|out| - 1].id, 1)
    else SeedAfter(seed, out[..|out| - 1])
  }

  lemma SeedPush(seed: int, out: seq<Contact>, o: Contact)
    ensures SeedAfter(seed, out + [o]) == if LifeNew in o.lifeFlags then RingId(o.id, 1) else SeedAfter(seed, out)
  {
    assert (out + [o])[..|out|] == out;
  }

  lemma SeedPushed(seed: int, a: Build, o: Contact, t: Track, next: int)
    requires ContactIds(a.out) == Ids(a.next) && ValidIds(Ids(a.next)) && a.seed == SeedAfter(seed, a.out)
    requires o.id == t.id && 1 <= t.id <= MAX_TOUCHES && t.id !in Ids(a.next)
    requires next == if LifeNew in o.lifeFlags then RingId(o.id, 1) else a.seed
    ensures next == SeedAfter(seed, Push(a.out, o))
  {
    PushIds(a.out, a.next, o, t);
    SeedPush(seed, a.out, o);
  }

  lemma FollowFlags(cfg: Config, aft: Aft, t: Track, pre: int, c: Contact, always: bool)
    ensures var ot := Follow(cfg, aft, t, pre, c, always);
      ot.0.id == ot.1.id == t.id && LifeNew !in ot.0.lifeFlags
  {
  }

  lemma BeginFlags(cfg: Config, aft: Aft, id: int, c: Contact)
    ensures var ot := Begin(cfg, aft, id, c); ot.0.id == ot.1.id == id && LifeNew in ot.0.lifeFlags
  {
  }

  lemma FollowSeed(cfg: Config, aft: Aft, tracks: seq<Track>, c: Contact, pre: int, always: bool, a: Build, seed: int)
    requires 0 <= pre < |tracks| && 1 <= tracks[pre].id <= MAX_TOUCHES && tracks[pre].id !in Ids(a.next)
    requires ContactIds(a.out) == Ids(a.next) && ValidIds(Ids(a.next)) && a.seed == SeedAfter(seed, a.out)
    ensures var b := LiveStep(cfg, aft, tracks, c, pre, always, a); b.seed == SeedAfter(seed, b.out)
  {
    FollowFlags(cfg, aft, tracks[pre], pre, c, always);
    var ot := Follow(cfg, aft, tracks[pre], pre, c, always);
    SeedPushed(seed, a, ot.0, ot.1, a.seed);
  }

  lemma BeginSeed(cfg: Config, aft: Aft, tracks: seq<Track>, c: Contact, always: bool, a: Build, seed: int)
    requires 1 <= a.seed <= MAX_TOUCHES
    requires ContactIds(a.out) == Ids(a.next) && ValidIds(Ids(a.next)) && a.seed == SeedAfter(seed, a.out)
    ensures var b := LiveStep(cfg, aft, tracks, c, -1, always, a); b.seed == SeedAfter(seed, b.out)
  {
    var id := FirstFree(a.seed, Ids(a.next), Ids(tracks), 0);
    FirstFreeIsFree(a.seed, Ids(a.next), Ids(tracks), 0);
    if id != 0 {
      BeginFlags(cfg, aft, id, c);
      var ot := Begin(cfg, aft, id, c);
      SeedPushed(seed, a, ot.0, ot.1, id % MAX_TOUCHES + 1);
    }
  }

  /** One contact of the first loop. */
  lemma LiveStepSeed(cfg: Config, aft: Aft, tracks: seq<Track>, contacts: seq<Contact>, m: seq<int>, always: seq<bool>,
                     k: nat, a: Build, src: seq<int>, seed: int)
    requires IsMatching(m, |contacts|, |tracks|) && |always| == |m| && 1 <= k <= |m| && ValidIds(Ids(tracks))
    requires LiveOk(cfg, aft, tracks, contacts, m, always, k - 1, a, src) && a.seed == SeedAfter(seed, a.out)
    ensures var b := LiveStep(cfg, aft, tracks, contacts[k - 1], m[k - 1], always[k - 1], a);
      b.seed == SeedAfter(seed, b.out)
  {
    if m[k - 1] >= 0 {
      FollowedIsNew(cfg, aft, tracks, contacts, m, always, k, a, src);
      FollowSeed(cfg, aft, tracks, contacts[k - 1], m[k - 1], always[k - 1], a, seed);
    } else {
      BeginSeed(cfg, aft, tracks, contacts[k - 1], always[k - 1], a, seed);
    }
  }

  lemma {:induction false} LiveSeed(cfg: Config, aft: Aft, tracks: seq<Track>, contacts: seq<Contact>, m: seq<int>,
                                    always: seq<bool>, seed: int, k: nat)
    requires IsMatching(m, |contacts|, |tracks|) && |always| == |m| && k <= |m|
    requires ValidIds(Ids(tracks)) && 1 <= seed <= MAX_TOUCHES
    ensures var b := Live(cfg, aft, tracks, contacts, m, always, seed, k); b.seed == SeedAfter(seed, b.out)
  {
    if k > 0 {
      LiveSeed(cfg, aft, tracks, contacts, m, always, seed, k - 1);
      var src := LiveKeepsIds(cfg, aft, tracks, contacts, m, always, seed, k - 1);
      LiveStepSeed(cfg, aft, tracks, contacts, m, always, k,
                   Live(cfg, aft, tracks, contacts, m, always, seed, k - 1), src, seed);
    }
  }

  lemma {:induction false} SeedOfPrefix(seed: int, start: seq<Contact>, out: seq<Contact>)
    requires start <= out && forall i :: |start| <= i < |out| ==> LifeNew !in out[i].lifeFlags
    ensures SeedAfter(seed, out) == SeedAfter(seed, start)
    decreases |out|
  {
    if |out| > |start| {
      SeedOfPrefix(seed, start, out[..|out| - 1]);
    } else {
      assert out == start;
    }
  }

  lemma UpsAreOld(cfg: Config, tracks: seq<Track>, m: seq<int>, live: Build, b: Build, kept: seq<int>, ups: seq<int>)
    requires LiftOk(cfg, tracks, m, live, |tracks|, b, kept, ups)
    ensures live.out <= b.out && forall i :: |live.out| <= i < |b.out| ==> LifeNew !in b.out[i].lifeFlags
  {
    forall i | |live.out| <= i < |b.out| ensures LifeNew !in b.out[i].lifeFlags {
      var p := ups[i - |live.out|];
      assert b.out[|live.out| + (i - |live.out|)] == UpContact(Aged(cfg, tracks[p]), p);
    }
  }

  lemma BuiltSeed(cfg: Config, s: State, frame: Frame, m: seq<int>, always: seq<bool>)
    requires cfg.liftOffHoldFrames >= 0 && StateOk(cfg, s)
    requires IsMatching(m, |Admitted(cfg, frame)|, |s.tracks|) && |always| == |m|
    ensures var b := Built(cfg, s, frame, m, always); b.seed == SeedAfter(s.nextIdSeed, b.out)
  {
    var contacts, aft := Admitted(cfg, frame), AftContext(cfg, s, frame.pen);
    var live := Live(cfg, aft, s.tracks, contacts, m, always, s.nextIdSeed, |m|);
    var src := LiveKeepsIds(cfg, aft, s.tracks, contacts, m, always, s.nextIdSeed, |m|);
    MatchedIsLive(cfg, aft, s.tracks, contacts, m, always, live, src);
    var kept, ups := LiftKeepsIds(cfg, s.tracks, m, live, |s.tracks|);
    var b := Lift(cfg, s.tracks, m, live, |s.tracks|);
    LiveSeed(cfg, aft, s.tracks, contacts, m, always, s.nextIdSeed, |m|);
    UpsAreOld(cfg, s.tracks, m, live, b, kept, ups);
    SeedOfPrefix(s.nextIdSeed, live.out, b.out);
  }

  /** The next search for an id starts behind the id given last, so ids are reused as late as possible. */
  lemma SeedAdvances(cfg: Config, s: State, frame: Frame, out: seq<Contact>, s': State)
    requires cfg.liftOffHoldFrames >= 0 && StateOk(cfg, s) && Step(cfg, s, frame, out, s') && !MayClear(cfg, frame)
    ensures s'.nextIdSeed == SeedAfter(s.nextIdSeed, out)
  {
    var m, always :|
      && Paired(cfg, Admitted(cfg, frame), s.tracks, m, always)
      && IsMatching(m, |Admitted(cfg, frame)|, |s.tracks|)
      && var b := Unghosted(cfg, Built(cfg, s, frame, m, always));
         out == b.out && s'.nextIdSeed == b.seed;
    BuiltSeed(cfg, s, frame, m, always);
  }
}
