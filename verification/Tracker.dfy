/** TouchTracker: the object that carries tracks, id seed and pen context from frame to frame. */
module Tracker {
  import opened EngineTypes
  import opened Matching
  import opened TrackerModel
  import opened TrackerFrame
  import TrackerLife
  import Assignment

  /** Far beyond any sensor coordinate; keeps squared distances below the solver's infinity. */
  const COORD_LIMIT: real := 1000000.0

  predicate Within(r: real, limit: real) { -limit <= r <= limit }

  ghost predicate ContactInRange(c: Contact) { Within(c.x, COORD_LIMIT) && Within(c.y, COORD_LIMIT) }

  ghost predicate TrackInRange(t: Track) {
    && Within(t.x, COORD_LIMIT) && Within(t.y, COORD_LIMIT)
    && Within(t.vx, 2.0 * COORD_LIMIT) && Within(t.vy, 2.0 * COORD_LIMIT)
  }

  lemma ProductAtMost(m: real, n: real, la: real, lb: real)
    requires 0.0 <= m <= la && 0.0 <= n <= lb
    ensures 0.0 <= m * n <= la * lb
  {
    ProductNonNegative(m, n);
    ProductNonNegative(la - m, n);
    ProductNonNegative(la, lb - n);
    assert (la - m) * n == la * n - m * n;
    assert la * (lb - n) == la * lb - la * n;
  }

  lemma ProductWithin(a: real, b: real, la: real, lb: real)
    requires Within(a, la) && Within(b, lb) && la >= 0.0 && lb >= 0.0
    ensures Within(a * b, la * lb)
  {
    if a >= 0.0 && b >= 0.0 {
      ProductAtMost(a, b, la, lb);
    } else if a >= 0.0 {
      ProductAtMost(a, -b, la, lb);
      assert a * -b == -(a * b);
    } else if b >= 0.0 {
      ProductAtMost(-a, b, la, lb);
      assert -a * b == -(a * b);
    } else {
      ProductAtMost(-a, -b, la, lb);
      assert -a * -b == a * b;
    }
  }

  /** Squared distances between sensor positions stay far below the solver's bound. */
  lemma DistanceBounded(cfg: Config, c: Contact, t: Track)
    requires ContactInRange(c) && TrackInRange(t) && Within(cfg.predictionScale, COORD_LIMIT)
    ensures 0.0 <= Distance(cfg, c, t) < Assignment.COST_LIMIT
  {
    var far := 2.0 * COORD_LIMIT * COORD_LIMIT + 2.0 * COORD_LIMIT;
    ProductWithin(t.vx, cfg.predictionScale, 2.0 * COORD_LIMIT, COORD_LIMIT);
    ProductWithin(t.vy, cfg.predictionScale, 2.0 * COORD_LIMIT, COORD_LIMIT);
    var dx, dy := c.x - PredictedX(cfg, t), c.y - PredictedY(cfg, t);
    assert Within(dx, far) && Within(dy, far);
    SquareWithin(dx, far);
    SquareWithin(dy, far);
  }

  lemma SquareWithin(a: real, l: real)
    requires Within(a, l) && l >= 0.0
    ensures 0.0 <= a * a <= l * l
  {
    ProductWithin(a, a, l, l);
  }

  lemma CostsBounded(cfg: Config, contacts: seq<Contact>, tracks: seq<Track>)
    requires forall c :: c in contacts ==> ContactInRange(c)
    requires forall t :: t in tracks ==> TrackInRange(t)
    requires Within(cfg.predictionScale, COORD_LIMIT)
    ensures Assignment.Bounded(CostMatrix(cfg, contacts, tracks))
  {
    var cost := CostMatrix(cfg, contacts, tracks);
    forall r, p | 0 <= r < |cost| && 0 <= p < |cost[r]|
      ensures -Assignment.COST_LIMIT < cost[r][p] < Assignment.COST_LIMIT
    {
      assert contacts[r] in contacts && tracks[p] in tracks;
      DistanceBounded(cfg, contacts[r], tracks[p]);
    }
  }

  lemma {:induction false} LiveInRange(cfg: Config, aft: Aft, tracks: seq<Track>, contacts: seq<Contact>, m: seq<int>,
                                       always: seq<bool>, seed: int, k: nat)
    requires |contacts| == |m| == |always| && k <= |m|
    requires forall c :: 0 <= c < |m| ==> -1 <= m[c] < |tracks|
    requires (forall t :: t in tracks ==> TrackInRange(t)) && (forall c :: c in contacts ==> ContactInRange(c))
    ensures forall t :: t in Live(cfg, aft, tracks, contacts, m, always, seed, k).next ==> TrackInRange(t)
  {
    if k > 0 {
      LiveInRange(cfg, aft, tracks, contacts, m, always, seed, k - 1);
      assert contacts[k - 1] in contacts;
      if m[k - 1] >= 0 { assert tracks[m[k - 1]] in tracks; }
    }
  }

  /** The scan shared by the greedy matcher and the fallback. */
  method Nearest(d: seq<real>, used: seq<bool>, ghost taken: seq<int>) returns (b: int)
    requires |used| == |d| && forall p :: 0 <= p < |d| ==> (used[p] <==> p in taken)
    ensures NearestFree(d, taken, b)
  {
    var best := FLT_MAX;
    b := -1;
    for p := 0 to |d|
      invariant -1 <= b < p
      invariant b == -1 ==> best == FLT_MAX
      invariant b >= 0 ==> !used[b] && best == d[b] < FLT_MAX
      invariant forall k :: 0 <= k < p && !used[k] ==> best <= d[k] && (k < b ==> best < d[k])
    {
      if used[p] { continue; }
      if d[p] < best { best := d[p]; b := p; }
    }
  }

  method Greedy(cost: Matrix, cols: nat) returns (a: seq<int>)
    requires forall c :: 0 <= c < |cost| ==> |cost[c]| == cols
    ensures IsGreedy(cost, a)
  {
    var used := seq(cols, _ => false);
    a := seq(|cost|, _ => -1);
    for c := 0 to |cost|
      invariant |a| == |cost| && |used| == cols
      invariant forall k :: 0 <= k < c ==> NearestFree(cost[k], a[..k], a[k])
      invariant forall k :: c <= k < |a| ==> a[k] == -1
      invariant forall p :: 0 <= p < cols ==> (used[p] <==> p in a[..c])
    {
      var b := Nearest(cost[c], used, a[..c]);
      ghost var a0 := a;
      if b >= 0 {
        used := used[b := true];
        a := a[c := b];
      }
      assert a == a0[c := b];
      forall k | 0 <= k <= c ensures a[..k] == a0[..k] {
      }
      assert a[..c + 1] == a[..c] + [b];
    }
  }

  /** The flags show the tracks matched by the first `c` contacts. */
  ghost predicate MatchedBy(preMatched: seq<bool>, m: seq<int>, c: nat)
    requires c <= |m|
  {
    forall p :: 0 <= p < |preMatched| ==> (preMatched[p] <==> p in m[..c])
  }

  lemma MatchedMore(preMatched: seq<bool>, m: seq<int>, c: nat)
    requires c < |m| && MatchedBy(preMatched, m, c) && -1 <= m[c] < |preMatched|
    ensures MatchedBy(if m[c] >= 0 then preMatched[m[c] := true] else preMatched, m, c + 1)
  {
    assert m[..c + 1] == m[..c] + [m[c]];
  }

  /** The fallback is through with the contacts before `c`. */
  ghost predicate RescuedBefore(cfg: Config, contacts: seq<Contact>, tracks: seq<Track>, g: seq<int>, m: seq<int>,
                                always: seq<bool>, c: nat)
  {
    && |m| == |always| == |g| == |contacts| && c <= |g|
    && (forall k :: c <= k < |g| ==> m[k] == g[k] && !always[k])
    && (forall k :: 0 <= k < |g| && g[k] >= 0 ==> m[k] == g[k] && !always[k])
    && (forall k :: 0 <= k < c && g[k] < 0 ==> Saved(cfg, contacts[k], tracks, g + m[..k], m[k], always[k]))
  }

  lemma RescueFits(cfg: Config, contacts: seq<Contact>, tracks: seq<Track>, g: seq<int>, m: seq<int>, always: seq<bool>,
                   c: nat)
    requires RescuedBefore(cfg, contacts, tracks, g, m, always, c) && c < |g| && g[c] >= 0
    ensures RescuedBefore(cfg, contacts, tracks, g, m, always, c + 1) && m[..c + 1] == m[..c] + [g[c]]
  {
  }

  lemma RescueOneMore(cfg: Config, contacts: seq<Contact>, tracks: seq<Track>, g: seq<int>, m: seq<int>,
                      always: seq<bool>, c: nat, b: int)
    requires RescuedBefore(cfg, contacts, tracks, g, m, always, c) && c < |g| && g[c] == -1
    requires Saved(cfg, contacts[c], tracks, g + m[..c], b, b >= 0)
    ensures RescuedBefore(cfg, contacts, tracks, g, m[c := b], always[c := b >= 0], c + 1)
    ensures b == -1 ==> m[c := b] == m && always[c := b >= 0] == always
  {
    var m', always' := m[c := b], always[c := b >= 0];
    forall k | 0 <= k <= c && g[k] < 0 ensures Saved(cfg, contacts[k], tracks, g + m'[..k], m'[k], always'[k]) {
      assert m'[..k] == m[..k];
    }
  }

  class TouchTracker {
    const cfg: Config
    var tracks: seq<Track>
    var nextIdSeed: int
    var stylusFramesSinceActive: int
    var lastStylusX: real
    var lastStylusY: real

    ghost function Snapshot(): State
      reads this
    {
      State(tracks, nextIdSeed, stylusFramesSinceActive, lastStylusX, lastStylusY)
    }

    ghost predicate Valid()
      reads this
    {
      && cfg.liftOffHoldFrames >= 0 && Within(cfg.predictionScale, COORD_LIMIT)
      && StateOk(cfg, Snapshot())
      && forall t :: t in tracks ==> TrackInRange(t)
    }

    constructor (cfg: Config)
      requires cfg.liftOffHoldFrames >= 0 && Within(cfg.predictionScale, COORD_LIMIT)
      ensures Valid() && Snapshot() == INIT && this.cfg == cfg
    {
      this.cfg := cfg;
      tracks, nextIdSeed := [], 1;
      stylusFramesSinceActive, lastStylusX, lastStylusY := 1000000, 0.0, 0.0;
    }

    /** First free id from the seed on, by scanning both vectors for every candidate. */
    method AllocateId(reserved: seq<Track>) returns (id: int)
      ensures id == FirstFree(nextIdSeed, Ids(reserved), Ids(tracks), 0)
    {
      for i := 0 to MAX_TOUCHES
        invariant FirstFree(nextIdSeed, Ids(reserved), Ids(tracks), 0)
                  == FirstFree(nextIdSeed, Ids(reserved), Ids(tracks), i)
      {
        var candidate := Candidate(nextIdSeed, i);
        var used := UsesId(reserved, candidate);
        if used { continue; }
        used := UsesId(tracks, candidate);
        if !used { return candidate; }
      }
      return 0;
    }

    static method UsesId(list: seq<Track>, id: int) returns (used: bool)
      ensures used <==> id in Ids(list)
    {
      for i := 0 to |list|
        invariant id !in Ids(list)[..i]
      {
        if list[i].id == id {
          assert Ids(list)[i] == id;
          return true;
        }
        assert Ids(list)[..i + 1] == Ids(list)[..i] + [list[i].id];
      }
      assert Ids(list)[..|list|] == Ids(list);
      return false;
    }

    /** The distance gate. */
    method Gate(contacts: seq<Contact>, h: seq<int>) returns (g: seq<int>)
      requires |h| == |contacts| && forall c :: 0 <= c < |h| ==> -1 <= h[c] < |tracks|
      ensures Gated(cfg, contacts, tracks, h, g)
    {
      g := h;
      for c := 0 to |contacts|
        invariant |g| == |h|
        invariant forall k :: c <= k < |h| ==> g[k] == h[k]
        invariant forall k :: 0 <= k < c ==> g[k] == if h[k] >= 0 && TooFar(cfg, contacts[k], tracks[h[k]]) then -1
                  else h[k]
      {
        if g[c] < 0 { continue; }
        if TooFar(cfg, contacts[c], tracks[g[c]]) { g := g[c := -1]; }
      }
    }

    /** Tracks some contact was paired with. */
    method MarkUsed(g: seq<int>) returns (pUsed: seq<bool>)
      requires forall c :: 0 <= c < |g| ==> -1 <= g[c] < |tracks|
      ensures |pUsed| == |tracks| && forall p :: 0 <= p < |tracks| ==> (pUsed[p] <==> p in g)
    {
      pUsed := seq(|tracks|, _ => false);
      for c := 0 to |g|
        invariant |pUsed| == |tracks|
        invariant forall p :: 0 <= p < |tracks| ==> (pUsed[p] <==> p in g[..c])
      {
        if g[c] >= 0 { pUsed := pUsed[g[c] := true]; }
        assert g[..c + 1] == g[..c] + [g[c]];
      }
      assert g[..|g|] == g;
    }

    /** The fallback for one contact: the nearest track not taken, or -1. */
    method RescueOne(c: Contact, pUsed: seq<bool>, ghost taken: seq<int>) returns (pre: int)
      requires |pUsed| == |tracks| && forall p :: 0 <= p < |tracks| ==> (pUsed[p] <==> p in taken)
      ensures -1 <= pre < |tracks| && Saved(cfg, c, tracks, taken, pre, pre >= 0)
    {
      pre := Nearest(CostRow(cfg, c, tracks), pUsed, taken);
      if pre >= 0
         && (Distance(cfg, c, tracks[pre]) > cfg.alwaysMatchDistance * cfg.alwaysMatchDistance || IsEdgeTouch(c.x, c.y))
      {
        pre := -1;
      }
    }

    /** The always-match fallback. */
    method Rescue(contacts: seq<Contact>, g: seq<int>) returns (m: seq<int>, always: seq<bool>)
      requires |g| == |contacts| && forall c :: 0 <= c < |g| ==> -1 <= g[c] < |tracks|
      ensures Rescued(cfg, contacts, tracks, g, m, always)
    {
      var pUsed := MarkUsed(g);
      m, always := g, seq(|g|, _ => false);
      for c := 0 to |g|
        invariant RescuedBefore(cfg, contacts, tracks, g, m, always, c) && |pUsed| == |tracks|
        invariant forall p :: 0 <= p < |tracks| ==> (pUsed[p] <==> p in g + m[..c])
      {
        if g[c] >= 0 {
          RescueFits(cfg, contacts, tracks, g, m, always, c);
          continue;
        }
        var b := RescueOne(contacts[c], pUsed, g + m[..c]);
        RescueOneMore(cfg, contacts, tracks, g, m, always, c, b);
        if b >= 0 {
          m, always := m[c := b], always[c := true];
          pUsed := pUsed[b := true];
        }
        assert m[..c + 1] == m[..c] + [b];
      }
    }

    /** Pairing of the frame's contacts with the stored tracks. */
    method Pair(contacts: seq<Contact>) returns (m: seq<int>, always: seq<bool>)
      requires Within(cfg.predictionScale, COORD_LIMIT)
      requires (forall t :: t in tracks ==> TrackInRange(t)) && (forall c :: c in contacts ==> ContactInRange(c))
      ensures Paired(cfg, contacts, tracks, m, always)
      ensures IsMatching(m, |contacts|, |tracks|)
    {
      m, always := seq(|contacts|, _ => -1), seq(|contacts|, _ => false);
      if |contacts| > 0 && |tracks| > 0 {
        var cost := CostMatrix(cfg, contacts, tracks);
        var h;
        if cfg.useHungarian {
          CostsBounded(cfg, contacts, tracks);
          h := Assignment.SolveAssignment(cost);
        } else {
          h := Greedy(cost, |tracks|);
          GreedyIsMatching(cost, h, |tracks|);
        }
        var g := Gate(contacts, h);
        m, always := Rescue(contacts, g);
      }
      PairingIsInjective(cfg, contacts, tracks, m, always);
    }

    /** Local pen suppression: erase the contacts near the pen. */
    method DropNearPen(contacts: seq<Contact>, pen: Pen) returns (kept: seq<Contact>)
      ensures kept == Surviving(cfg, pen, contacts)
      ensures forall c :: c in kept ==> c in contacts
    {
      kept := [];
      for i := 0 to |contacts|
        invariant kept == Surviving(cfg, pen, contacts[..i])
        invariant forall c :: c in kept ==> c in contacts
      {
        assert contacts[..i + 1][..i] == contacts[..i];
        if !NearPen(cfg, pen, contacts[i]) { kept := kept + [contacts[i]]; }
      }
      assert contacts[..|contacts|] == contacts;
    }

    /** One contact of the first loop. */
    method BuildOne(aft: Aft, contact: Contact, pre: int, always: bool, out0: seq<Contact>, next0: seq<Track>)
      returns (out: seq<Contact>, next: seq<Track>)
      requires -1 <= pre < |tracks|
      modifies `nextIdSeed
      ensures Build(out, next, nextIdSeed)
              == LiveStep(cfg, aft, tracks, contact, pre, always, Build(out0, next0, old(nextIdSeed)))
    {
      out, next := out0, next0;
      var o, t;
      if pre >= 0 {
        var ot := Follow(cfg, aft, tracks[pre], pre, contact, always);
        o, t := ot.0, ot.1;
      } else {
        var id := AllocateId(next);
        if id == 0 { return; }
        if Rejected(cfg, contact) { return; }
        var ot := Begin(cfg, aft, id, contact);
        o, t := ot.0, ot.1;
        nextIdSeed := id % MAX_TOUCHES + 1;
      }
      if |out| < MAX_TOUCHES { out := out + [o]; }
      if |next| < MAX_TOUCHES { next := next + [t]; }
    }

    /** First loop: matched contacts follow their tracks, the others start new ones. */
    method BuildLive(aft: Aft, contacts: seq<Contact>, m: seq<int>, always: seq<bool>)
      returns (out: seq<Contact>, next: seq<Track>, preMatched: seq<bool>)
      requires |contacts| == |m| == |always|
      requires forall c :: 0 <= c < |m| ==> -1 <= m[c] < |tracks|
      modifies `nextIdSeed
      ensures Build(out, next, nextIdSeed) == Live(cfg, aft, tracks, contacts, m, always, old(nextIdSeed), |m|)
      ensures |preMatched| == |tracks| && forall p :: 0 <= p < |tracks| ==> (preMatched[p] <==> p in m)
    {
      preMatched := seq(|tracks|, _ => false);
      out, next := [], [];
      for c := 0 to |contacts|
        invariant Build(out, next, nextIdSeed) == Live(cfg, aft, tracks, contacts, m, always, old(nextIdSeed), c)
        invariant |preMatched| == |tracks| && MatchedBy(preMatched, m, c)
      {
        MatchedMore(preMatched, m, c);
        if m[c] >= 0 { preMatched := preMatched[m[c] := true]; }
        out, next := BuildOne(aft, contacts[c], m[c], always[c], out, next);
      }
      assert m[..|m|] == m;
    }

    /** Second loop: unmatched tracks wait, lift off, or are dropped. */
    method BuildLifted(m: seq<int>, preMatched: seq<bool>, live: Build) returns (out: seq<Contact>, next: seq<Track>)
      requires |preMatched| == |tracks| && forall p :: 0 <= p < |tracks| ==> (preMatched[p] <==> p in m)
      requires (forall t :: t in tracks ==> TrackInRange(t)) && (forall t :: t in live.next ==> TrackInRange(t))
      ensures Build(out, next, live.seed) == Lift(cfg, tracks, m, live, |tracks|)
      ensures forall t :: t in next ==> TrackInRange(t)
    {
      out, next := live.out, live.next;
      for p := 0 to |tracks|
        invariant Build(out, next, live.seed) == Lift(cfg, tracks, m, live, p)
        invariant forall t :: t in next ==> TrackInRange(t)
      {
        if preMatched[p] { continue; }
        assert tracks[p] in tracks;
        out, next := LiftTrack(tracks[p], p, out, next, live.seed);
      }
    }

    /** One unmatched track waits, lifts off, or is dropped. */
    method LiftTrack(t0: Track, p: nat, out0: seq<Contact>, next0: seq<Track>, ghost seed: int)
      returns (out: seq<Contact>, next: seq<Track>)
      requires TrackInRange(t0) && forall t :: t in next0 ==> TrackInRange(t)
      ensures Build(out, next, seed) == LiftStep(cfg, t0, p, Build(out0, next0, seed))
      ensures forall t :: t in next ==> TrackInRange(t)
    {
      out, next := out0, next0;
      var t := t0.(missed := t0.missed + 1);
      if t.stylusSuppressFrames > 0 { t := t.(stylusSuppressFrames := t.stylusSuppressFrames - 1); }
      if !t.upEventEmitted && t.missed > cfg.liftOffHoldFrames {
        var up := UpContact(t, p);
        if |out| < MAX_TOUCHES { out := out + [up]; }
        t := t.(upEventEmitted := true);
      }
      if t.missed <= cfg.liftOffHoldFrames + 1 {
        t := t.(vx := 0.0, vy := 0.0);
        if |next| < MAX_TOUCHES { next := next + [t]; }
      }
    }

    /** Ids the contact at `i` and the later ones lose. */
    method GhostsFrom(out: seq<Contact>, i: nat) returns (gone: set<int>)
      requires i < |out|
      ensures gone == set k | i < k < |out| && Ghosts(cfg, out[i], out[k]) :: Weaker(out[i], out[k]).id
    {
      gone := {};
      for j := i + 1 to |out|
        invariant gone == set k | i < k < j && Ghosts(cfg, out[i], out[k]) :: Weaker(out[i], out[k]).id
      {
        if Ghosts(cfg, out[i], out[j]) { gone := gone + {Weaker(out[i], out[j]).id}; }
      }
    }

    /** Of two contacts that look like one and its ghost the weaker goes, with its track. */
    method DropGhosts(b: Build) returns (out: seq<Contact>, next: seq<Track>)
      ensures Build(out, next, b.seed) == Unghosted(cfg, b)
      ensures forall t :: t in next ==> t in b.next
    {
      out, next := b.out, b.next;
      if cfg.rxGhostFilterEnabled && |b.out| > 1 {
        var gone: set<int> := {};
        for i := 0 to |out|
          invariant gone == GhostIds(cfg, out, i)
        {
          var more := GhostsFrom(out, i);
          gone := gone + more;
        }
        FilteredOut(b, gone);
        out, next := WithoutContacts(b.out, gone), WithoutTracks(b.next, gone);
      }
    }

    static lemma FilteredOut(b: Build, gone: set<int>)
      ensures forall t :: t in WithoutTracks(b.next, gone) ==> t in b.next
    {
      TrackerLife.FilteredTracks(b.next, gone);
    }

    /** Remember where the pen was, and say whether it was there recently enough. */
    method ResolveStylusAft(pen: Pen) returns (aft: Aft)
      modifies `lastStylusX, `lastStylusY, `stylusFramesSinceActive
      ensures stylusFramesSinceActive == SinceActive(cfg, old(Snapshot()), pen)
      ensures (lastStylusX, lastStylusY) == LastPen(cfg, old(Snapshot()), pen)
      ensures aft == AftContext(cfg, old(Snapshot()), pen)
    {
      aft := Aft(false, 0.0, 0.0);
      if cfg.stylusAftEnabled {
        if pen.valid {
          lastStylusX, lastStylusY := pen.x, pen.y;
          stylusFramesSinceActive := 0;
        } else if stylusFramesSinceActive < 1000000 {
          stylusFramesSinceActive := stylusFramesSinceActive + 1;
        }
        if stylusFramesSinceActive <= cfg.stylusAftRecentFrames { aft := Aft(true, lastStylusX, lastStylusY); }
      }
    }

    static lemma StepTaken(cfg: Config, s: State, frame: Frame, m: seq<int>, always: seq<bool>, out: seq<Contact>,
                           s': State)
      requires cfg.liftOffHoldFrames >= 0 && StateOk(cfg, s) && !GloballySuppressed(cfg, frame.pen)
      requires Paired(cfg, Admitted(cfg, frame), s.tracks, m, always)
      requires IsMatching(m, |Admitted(cfg, frame)|, |s.tracks|)
      requires out == Unghosted(cfg, Built(cfg, s, frame, m, always)).out
      requires s'.tracks == Unghosted(cfg, Built(cfg, s, frame, m, always)).next
      requires s'.nextIdSeed == Built(cfg, s, frame, m, always).seed
      requires s'.framesSinceActive == SinceActive(cfg, s, frame.pen)
      requires (s'.lastX, s'.lastY) == LastPen(cfg, s, frame.pen)
      ensures Step(cfg, s, frame, out, s')
      ensures StateOk(cfg, s') && ValidIds(ContactIds(out))
    {
      assert Step(cfg, s, frame, out, s');
      TrackerLife.StepKeepsState(cfg, s, frame, out, s', 0);
    }

    static lemma StepCleared(cfg: Config, s: State, frame: Frame)
      requires cfg.liftOffHoldFrames >= 0 && StateOk(cfg, s) && GloballySuppressed(cfg, frame.pen)
      ensures Step(cfg, s, frame, [], s.(tracks := []))
      ensures StateOk(cfg, s.(tracks := [])) && ValidIds(ContactIds([]))
    {
      TrackerLife.StepKeepsState(cfg, s, frame, [], s.(tracks := []), 0);
    }

    /** The loops of one frame on the contacts the pen left. */
    method Advance(ghost s: State, ghost frame: Frame, contacts: seq<Contact>, m: seq<int>, always: seq<bool>, aft: Aft)
      returns (out: seq<Contact>)
      requires contacts == Admitted(cfg, frame) && |contacts| == |m| == |always|
      requires (forall c :: 0 <= c < |m| ==> -1 <= m[c] < |tracks|)
      requires s.tracks == tracks && s.nextIdSeed == nextIdSeed && aft == AftContext(cfg, s, frame.pen)
      requires (forall t :: t in tracks ==> TrackInRange(t)) && (forall c :: c in contacts ==> ContactInRange(c))
      modifies `tracks, `nextIdSeed
      ensures out == Unghosted(cfg, Built(cfg, s, frame, m, always)).out
      ensures tracks == Unghosted(cfg, Built(cfg, s, frame, m, always)).next
      ensures nextIdSeed == Built(cfg, s, frame, m, always).seed
      ensures forall t :: t in tracks ==> TrackInRange(t)
    {
      var next, preMatched;
      out, next, preMatched := BuildLive(aft, contacts, m, always);
      LiveInRange(cfg, aft, tracks, contacts, m, always, s.nextIdSeed, |m|);
      ghost var live := Build(out, next, nextIdSeed);
      out, next := BuildLifted(m, preMatched, Build(out, next, nextIdSeed));
      ghost var b := Lift(cfg, tracks, m, live, |tracks|);
      assert b == Built(cfg, s, frame, m, always);
      out, next := DropGhosts(Build(out, next, nextIdSeed));
      tracks := next;
    }

    /** One frame: the state steps as specified, stays sound, and the reported ids are distinct. */
    method Process(frame: Frame) returns (out: seq<Contact>)
      requires Valid() && forall c :: c in frame.contacts ==> ContactInRange(c)
      modifies this
      ensures Valid()
      ensures Step(cfg, old(Snapshot()), frame, out, Snapshot())
      ensures ValidIds(ContactIds(out))
    {
      ghost var s := Snapshot();
      if GloballySuppressed(cfg, frame.pen) {
        StepCleared(cfg, s, frame);
        tracks := [];
        return [];
      }
      var contacts := if |frame.contacts| > MAX_TOUCHES then frame.contacts[..MAX_TOUCHES] else frame.contacts;
      contacts := DropNearPen(contacts, frame.pen);
      var aft := ResolveStylusAft(frame.pen);
      var m, always := Pair(contacts);
      out := Advance(s, frame, contacts, m, always, aft);
      StepTaken(cfg, s, frame, m, always, out, Snapshot());
    }
  }
}
