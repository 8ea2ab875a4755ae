/** Fingers over several frames: those that move as predicted keep their ids, and a touch that stays is a Down for a
    fixed number of frames. */
module TrackerMotion {
  import opened EngineTypes
  import opened Matching
  import opened TrackerModel
  import opened TrackerFrame
  import opened TrackerLife
  import opened TrackerFields

  // ----- fingers that move as predicted keep their ids -----

  /** Contact `c` is where track `t` was expected. */
  ghost predicate AsExpected(cfg: Config, c: Contact, t: Track) {
    c.x == t.x + t.vx * cfg.predictionScale && c.y == t.y + t.vy * cfg.predictionScale
  }

  ghost function Product(a: real, b: real): (r: real)
    ensures r == a * b && (a > 0.0 && b > 0.0 ==> r > 0.0)
  {
    a * b
  }

  ghost function Square(a: real): (r: real)
    ensures r >= 0.0 && (a != 0.0 ==> r > 0.0) && r == a * a
  {
    if a > 0.0 then Product(a, a) else if a < 0.0 then Product(-a, -a) else 0.0
  }

  lemma PlacesApart(x: real, y: real, px: real, py: real)
    ensures DistanceSq(x, y, px, py) >= 0.0
    ensures DistanceSq(x, y, px, py) == 0.0 <==> x == px && y == py
  {
    assert DistanceSq(x, y, px, py) == Square(x - px) + Square(y - py);
  }

  lemma ExpectedIsApartZero(cfg: Config, c: Contact, t: Track)
    ensures Distance(cfg, c, t) >= 0.0 && (Distance(cfg, c, t) == 0.0 <==> AsExpected(cfg, c, t))
  {
    PlacesApart(c.x, c.y, PredictedX(cfg, t), PredictedY(cfg, t));
  }

  /** `f` pairs every contact with the one track it is expected at. */
  ghost predicate Expected(cfg: Config, contacts: seq<Contact>, tracks: seq<Track>, f: seq<int>) {
    && IsMatching(f, |contacts|, |tracks|)
    && (forall k :: 0 <= k < |f| ==> f[k] >= 0)
    && forall k, p :: 0 <= k < |contacts| && 0 <= p < |tracks| ==>
         (AsExpected(cfg, contacts[k], tracks[p]) <==> p == f[k])
  }

  /** A pairing of cost zero: costs are zero there and positive elsewhere. */
  ghost predicate FreeAt(cost: Matrix, f: seq<int>) {
    && |f| == |cost|
    && (forall k :: 0 <= k < |f| ==> 0 <= f[k] < |cost[k]|)
    && forall k, p :: 0 <= k < |cost| && 0 <= p < |cost[k]| ==> cost[k][p] >= 0.0 && (cost[k][p] == 0.0 <==> p == f[k])
  }

  lemma {:induction false} FreeTotal(cost: Matrix, f: seq<int>, n: nat)
    requires FreeAt(cost, f) && n <= |f|
    ensures Total(cost, f[..n]) == 0.0 && Size(f[..n]) == n
  {
    if n > 0 {
      FreeTotal(cost, f, n - 1);
      assert f[..n][..n - 1] == f[..n - 1];
    }
  }

  /** No other full pairing is as cheap. */
  lemma {:induction false} OnlyFree(cost: Matrix, f: seq<int>, h: seq<int>, n: nat)
    requires FreeAt(cost, f) && n <= |f| == |h| && forall k :: 0 <= k < |h| ==> -1 <= h[k] < |cost[k]|
    ensures Total(cost, h[..n]) >= 0.0 && Size(h[..n]) <= n
    ensures Total(cost, h[..n]) <= 0.0 && Size(h[..n]) == n ==> h[..n] == f[..n]
  {
    if n > 0 {
      OnlyFree(cost, f, h, n - 1);
      assert h[..n][..n - 1] == h[..n - 1];
      assert h[..n] == h[..n - 1] + [h[n - 1]] && f[..n] == f[..n - 1] + [f[n - 1]];
    }
  }

  lemma OptimalIsFree(cost: Matrix, f: seq<int>, h: seq<int>)
    requires Rectangular(cost) && FreeAt(cost, f) && IsMatching(f, |cost|, Cols(cost)) && IsOptimal(cost, h)
    ensures h == f
  {
    FreeTotal(cost, f, |f|);
    OnlyFree(cost, f, h, |h|);
    assert f[..|f|] == f && h[..|h|] == h;
  }

  lemma {:induction false} GreedyIsFree(cost: Matrix, f: seq<int>, h: seq<int>, cols: nat, n: nat)
    requires FreeAt(cost, f) && IsMatching(f, |cost|, cols) && IsGreedy(cost, h) && n <= |f|
    ensures h[..n] == f[..n]
  {
    if n > 0 {
      GreedyIsFree(cost, f, h, cols, n - 1);
      assert NearestFree(cost[n - 1], h[..n - 1], h[n - 1]);
      assert f[n - 1] !in f[..n - 1];
      assert h[..n] == h[..n - 1] + [h[n - 1]] && f[..n] == f[..n - 1] + [f[n - 1]];
    }
  }

  lemma ExpectedIsFree(cfg: Config, contacts: seq<Contact>, tracks: seq<Track>, f: seq<int>)
    requires Expected(cfg, contacts, tracks, f)
    ensures FreeAt(CostMatrix(cfg, contacts, tracks), f)
  {
    var cost := CostMatrix(cfg, contacts, tracks);
    forall k, p | 0 <= k < |cost| && 0 <= p < |cost[k]|
      ensures cost[k][p] >= 0.0 && (cost[k][p] == 0.0 <==> p == f[k])
    {
      ExpectedIsApartZero(cfg, contacts[k], tracks[p]);
    }
  }

  lemma ExpectedNotTooFar(cfg: Config, c: Contact, t: Track)
    requires AsExpected(cfg, c, t)
    ensures !TooFar(cfg, c, t)
  {
    ExpectedIsApartZero(cfg, c, t);
    ApartIsDistance(cfg, c, t);
    var far := Square(cfg.maxTrackDistance);
    var wide, boost := Square(cfg.edgeTrackBoost), Square(cfg.accThresholdBoost);
    ProductNonNegative(far, wide);
    ProductNonNegative(far, boost);
    ProductNonNegative(far * wide, boost);
  }

  /** Contacts that are where their tracks were expected are paired with them, by either matcher. */
  lemma ExpectedIsPaired(cfg: Config, contacts: seq<Contact>, tracks: seq<Track>, f: seq<int>, m: seq<int>,
                         always: seq<bool>)
    requires Expected(cfg, contacts, tracks, f) && Paired(cfg, contacts, tracks, m, always)
    ensures m == f
  {
    if |contacts| > 0 {
      assert 0 <= f[0] < |tracks|;
      var cost := CostMatrix(cfg, contacts, tracks);
      var h: seq<int>, g: seq<int> :|
        && (if cfg.useHungarian then IsOptimal(cost, h) else IsGreedy(cost, h))
        && Gated(cfg, contacts, tracks, h, g)
        && Rescued(cfg, contacts, tracks, g, m, always);
      ExpectedIsFree(cfg, contacts, tracks, f);
      if cfg.useHungarian {
        OptimalIsFree(cost, f, h);
      } else {
        GreedyIsFree(cost, f, h, |tracks|, |f|);
        assert h[..|f|] == h && f[..|f|] == f;
      }
      forall k | 0 <= k < |m| ensures m[k] == f[k] {
        ExpectedNotTooFar(cfg, contacts[k], tracks[f[k]]);
      }
    }
  }

  /** Contact `a` is reported live under id `d`, at its place. */
  ghost predicate Carried(out: seq<Contact>, a: Contact, d: int) {
    exists o :: o in out && o.id == d && o.state != StateUp && o.x == a.x && o.y == a.y
  }

  lemma PairedIsCarried(cfg: Config, aft: Aft, tracks: seq<Track>, contacts: seq<Contact>, m: seq<int>,
                        always: seq<bool>, live: Build, src: seq<int>, k: nat)
    requires IsMatching(m, |contacts|, |tracks|) && |always| == |m| && k < |m| && m[k] >= 0
    requires LiveOk(cfg, aft, tracks, contacts, m, always, |m|, live, src)
    ensures Carried(live.out, contacts[k], tracks[m[k]].id)
  {
    assert k in src;
    var i :| 0 <= i < |src| && src[i] == k;
    var o := live.out[i];
    LiveEntry(cfg, aft, tracks, contacts[k], m[k], always[k], o, live.next[i]);
    assert o in live.out;
  }

  lemma CarriedMore(out: seq<Contact>, more: seq<Contact>, a: Contact, d: int)
    requires out <= more && Carried(out, a, d)
    ensures Carried(more, a, d)
  {
    var o :| o in out && o.id == d && o.state != StateUp && o.x == a.x && o.y == a.y;
    assert o in more[..|out|];
  }

  lemma CarriedByFrame(cfg: Config, s: State, frame: Frame, m: seq<int>, always: seq<bool>, live: Build, src: seq<int>,
                       b: Build, kept: seq<int>, ups: seq<int>, k: nat)
    requires FrameOk(cfg, s, frame, m, always, live, src, b, kept, ups) && k < |m| && m[k] >= 0
    ensures Carried(b.out, Admitted(cfg, frame)[k], s.tracks[m[k]].id)
  {
    PairedIsCarried(cfg, AftContext(cfg, s, frame.pen), s.tracks, Admitted(cfg, frame), m, always, live, src, k);
    CarriedMore(live.out, b.out, Admitted(cfg, frame)[k], s.tracks[m[k]].id);
  }

  /** When every contact is where exactly one track was expected, every id goes on with its finger; the assignment by
      cost and the greedy one agree on that, and neither the gate nor the fallback interferes. */
  lemma ExpectedKeepIds(cfg: Config, s: State, frame: Frame, out: seq<Contact>, s': State, f: seq<int>, k: nat)
    requires cfg.liftOffHoldFrames >= 0 && StateOk(cfg, s) && Step(cfg, s, frame, out, s') && !MayClear(cfg, frame)
    requires Expected(cfg, Admitted(cfg, frame), s.tracks, f) && k < |f|
    ensures Carried(out, Admitted(cfg, frame)[k], s.tracks[f[k]].id)
  {
    var m, always, live, src, b, kept, ups := StepPairs(cfg, s, frame, out, s');
    ExpectedIsPaired(cfg, Admitted(cfg, frame), s.tracks, f, m, always);
    CarriedByFrame(cfg, s, frame, m, always, live, src, b, kept, ups, k);
  }

  /** Contact `d` goes on from `c` as `c` went on from track `was`. */
  ghost predicate Steady(was: Track, c: Contact, d: Contact) {
    d.x - c.x == c.x - was.x && d.y - c.y == c.y - was.y
  }

  /** Contact `k` of a frame goes on from `who[k]` at constant velocity, and no other track is expected there. */
  ghost predicate AllSteady(s: State, out: seq<Contact>, tracks: seq<Track>, who: seq<Contact>,
                            contacts: seq<Contact>)
  {
    && |who| == |contacts|
    && (forall k :: 0 <= k < |who| ==>
          && who[k] in out && who[k].state != StateUp && 0 <= who[k].prevIndex < |s.tracks|
          && Steady(s.tracks[who[k].prevIndex], who[k], contacts[k]))
    && (forall j, k :: 0 <= j < k < |who| ==> who[j].id != who[k].id)
    && forall k, t :: 0 <= k < |who| && t in tracks && t.id != who[k].id ==>
         !(contacts[k].x == t.x + t.vx && contacts[k].y == t.y + t.vy)
  }

  lemma SteadyIsExpected(cfg: Config, was: Track, c: Contact, t: Track, d: Contact)
    requires cfg.predictionScale == 1.0 && Moved(was, c, t) && Steady(was, c, d)
    ensures AsExpected(cfg, d, t)
  {
  }

  lemma SteadyTrack(cfg: Config, s: State, frame: Frame, out: seq<Contact>, s': State, c: Contact, d: Contact)
    returns (i: nat)
    requires cfg.liftOffHoldFrames >= 0 && cfg.predictionScale == 1.0 && StateOk(cfg, s) && Step(cfg, s, frame, out, s')
    requires c in out && c.state != StateUp && 0 <= c.prevIndex < |s.tracks| && Steady(s.tracks[c.prevIndex], c, d)
    ensures OwnTrack(cfg, s'.tracks, c, d, i)
  {
    i := SeenIsStored(cfg, s, frame, out, s', c);
    FollowedMotion(cfg, s, frame, out, s', c, s'.tracks[i]);
    SteadyIsExpected(cfg, s.tracks[c.prevIndex], c, s'.tracks[i], d);
  }

  /** Track `i` is that of contact `c`, and expected at `d`. */
  ghost predicate OwnTrack(cfg: Config, tracks: seq<Track>, c: Contact, d: Contact, i: int) {
    0 <= i < |tracks| && tracks[i].id == c.id && AsExpected(cfg, d, tracks[i])
  }

  ghost predicate HasTrack(cfg: Config, tracks: seq<Track>, c: Contact, d: Contact) {
    exists i :: OwnTrack(cfg, tracks, c, d, i)
  }

  lemma OwnTracks(cfg: Config, tracks: seq<Track>, who: seq<Contact>, contacts: seq<Contact>) returns (f: seq<int>)
    requires |who| == |contacts|
    requires forall k :: 0 <= k < |who| ==> HasTrack(cfg, tracks, who[k], contacts[k])
    ensures |f| == |who| && forall k :: 0 <= k < |f| ==> OwnTrack(cfg, tracks, who[k], contacts[k], f[k])
  {
    f := [];
    for n := 0 to |who|
      invariant |f| == n && forall k :: 0 <= k < n ==> OwnTrack(cfg, tracks, who[k], contacts[k], f[k])
    {
      var i :| OwnTrack(cfg, tracks, who[n], contacts[n], i);
      f := f + [i];
    }
  }

  /** The tracks the fingers of `who` left in the frame before. */
  lemma SteadyTracks(cfg: Config, s: State, frame: Frame, out: seq<Contact>, s': State, who: seq<Contact>,
                     contacts: seq<Contact>)
    returns (f: seq<int>)
    requires cfg.liftOffHoldFrames >= 0 && cfg.predictionScale == 1.0
    requires StateOk(cfg, s) && Step(cfg, s, frame, out, s') && AllSteady(s, out, s'.tracks, who, contacts)
    ensures Expected(cfg, contacts, s'.tracks, f) && forall k :: 0 <= k < |f| ==> s'.tracks[f[k]].id == who[k].id
  {
    forall k | 0 <= k < |who| ensures HasTrack(cfg, s'.tracks, who[k], contacts[k]) {
      var i := SteadyTrack(cfg, s, frame, out, s', who[k], contacts[k]);
    }
    StepKeepsState(cfg, s, frame, out, s', 0);
    f := OwnTracks(cfg, s'.tracks, who, contacts);
    OnlyOwnTrack(cfg, s, out, s'.tracks, who, contacts, f);
  }

  lemma SeenIsStored(cfg: Config, s: State, frame: Frame, out: seq<Contact>, s': State, c: Contact) returns (i: nat)
    requires cfg.liftOffHoldFrames >= 0 && StateOk(cfg, s) && Step(cfg, s, frame, out, s')
    requires c in out && c.state != StateUp
    ensures i < |s'.tracks| && s'.tracks[i].id == c.id
  {
    StepKeepsState(cfg, s, frame, out, s', c.id);
    var n :| 0 <= n < |out| && out[n] == c;
    SightedAt(out, n);
    assert c.id in Ids(s'.tracks);
    i :| 0 <= i < |s'.tracks| && Ids(s'.tracks)[i] == c.id;
  }

  lemma OnlyOwnTrack(cfg: Config, s: State, out: seq<Contact>, tracks: seq<Track>, who: seq<Contact>,
                     contacts: seq<Contact>, f: seq<int>)
    requires cfg.predictionScale == 1.0 && ValidIds(Ids(tracks)) && AllSteady(s, out, tracks, who, contacts)
    requires |f| == |who| && forall k :: 0 <= k < |f| ==> OwnTrack(cfg, tracks, who[k], contacts[k], f[k])
    ensures Expected(cfg, contacts, tracks, f)
  {
    forall k, p | 0 <= k < |contacts| && 0 <= p < |tracks|
      ensures AsExpected(cfg, contacts[k], tracks[p]) <==> p == f[k]
    {
      assert OwnTrack(cfg, tracks, who[k], contacts[k], f[k]);
      assert Ids(tracks)[p] == tracks[p].id && Ids(tracks)[f[k]] == who[k].id;
      var t := tracks[p];
      assert t in tracks;
      assert t.vx * cfg.predictionScale == t.vx && t.vy * cfg.predictionScale == t.vy;
    }
  }

  /** Fingers that keep their velocity keep their ids, however their paths cross, unless two of them are due at one
      place. */
  lemma SteadyKeepIds(cfg: Config, s: State, frame: Frame, out: seq<Contact>, s': State, frame': Frame,
                      out': seq<Contact>, s'': State, who: seq<Contact>, k: nat)
    requires cfg.liftOffHoldFrames >= 0 && cfg.predictionScale == 1.0 && StateOk(cfg, s)
    requires Step(cfg, s, frame, out, s') && Step(cfg, s', frame', out', s'') && !MayClear(cfg, frame')
    requires AllSteady(s, out, s'.tracks, who, Admitted(cfg, frame')) && k < |who|
    ensures Carried(out', Admitted(cfg, frame')[k], who[k].id)
  {
    var f := SteadyTracks(cfg, s, frame, out, s', who, Admitted(cfg, frame'));
    StepKeepsState(cfg, s, frame, out, s', 0);
    ExpectedKeepIds(cfg, s', frame', out', s'', f, k);
  }

  // ----- how long a touch stays a Down -----

  /** The track of id `d` has been seen `age` times and has `left` debounce frames to go. */
  ghost predicate AtAge(tracks: seq<Track>, d: int, age: int, left: int) {
    exists t :: t in tracks && t.id == d && t.age == age && t.downDebounceFrames == left
  }

  lemma TrackOfId(tracks: seq<Track>, i: nat, t: Track)
    requires ValidIds(Ids(tracks)) && i < |tracks| && t in tracks && t.id == tracks[i].id
    ensures t == tracks[i]
  {
    var j :| 0 <= j < |tracks| && tracks[j] == t;
    assert Ids(tracks)[i] == Ids(tracks)[j];
  }

  /** A live contact with the id of a stored track follows that track. */
  lemma KnownIsFollowed(cfg: Config, s: State, frame: Frame, out: seq<Contact>, s': State, c: Contact, t: Track,
                        was: Track)
    requires cfg.liftOffHoldFrames >= 0 && StateOk(cfg, s) && Step(cfg, s, frame, out, s')
    requires c in out && c.state != StateUp && t in s'.tracks && t.id == c.id && was in s.tracks && was.id == c.id
    ensures Moved(was, c, t) && Ripened(was, c, t)
  {
    var i :| 0 <= i < |s.tracks| && s.tracks[i] == was;
    assert Ids(s.tracks)[i] == c.id;
    if c.prevIndex < 0 {
      var a := BegunFields(cfg, s, frame, out, s', c, t);
    }
    FollowedMotion(cfg, s, frame, out, s', c, t);
    FollowedState(cfg, s, frame, out, s', c, t);
    TrackOfId(s.tracks, c.prevIndex, was);
  }

  lemma AgeStep(cfg: Config, s: State, frame: Frame, out: seq<Contact>, s': State, c: Contact, age: int, left: int)
    requires cfg.liftOffHoldFrames >= 0 && StateOk(cfg, s) && Step(cfg, s, frame, out, s')
    requires c in out && c.state != StateUp && AtAge(s.tracks, c.id, age, left)
    ensures AtAge(s'.tracks, c.id, age + 1, left - (if left > 0 then 1 else 0))
    ensures c.state == StateDown <==> age <= 1 || left > 0
  {
    var was :| was in s.tracks && was.id == c.id && was.age == age && was.downDebounceFrames == left;
    var i := SeenIsStored(cfg, s, frame, out, s', c);
    KnownIsFollowed(cfg, s, frame, out, s', c, s'.tracks[i], was);
    assert s'.tracks[i] in s'.tracks;
  }

  lemma AgeStart(cfg: Config, s: State, frame: Frame, out: seq<Contact>, s': State, c: Contact) returns (a: Contact)
    requires cfg.liftOffHoldFrames >= 0 && StateOk(cfg, s) && Step(cfg, s, frame, out, s')
    requires c in out && c.state != StateUp && LifeNew in c.lifeFlags
    ensures a in Admitted(cfg, frame) && a.x == c.x && a.y == c.y && a.signalSum == c.signalSum && a.area == c.area
    ensures c.state == StateDown
    ensures AtAge(s'.tracks, c.id, 1, HeldBack(cfg, a) - (if HeldBack(cfg, a) > 0 then 1 else 0))
  {
    var i := SeenIsStored(cfg, s, frame, out, s', c);
    var t := s'.tracks[i];
    if c.prevIndex >= 0 { FollowedMotion(cfg, s, frame, out, s', c, t); }
    a := BegunFields(cfg, s, frame, out, s', c, t);
    assert t in s'.tracks;
  }

  /** Debounce frames to go after `age` sightings of a touch held back for `held` of them. */
  ghost function LeftAfter(held: int, age: int): int {
    if held <= 0 then held else if age <= held then held - age else 0
  }

  ghost predicate SeenFrom(outs: seq<seq<Contact>>, d: int, from: nat, to: nat) {
    to <= |outs| && forall j :: from <= j < to ==> Sighted(outs[j], d) == Seen
  }

  lemma SeenContact(out: seq<Contact>, d: int) returns (c: Contact)
    requires Sighted(out, d) == Seen
    ensures c in out && c.id == d && c.state != StateUp
  {
    var i :| 0 <= i < |out| && out[i].id == d && out[i].state != StateUp;
    c := out[i];
  }

  lemma SeenIsLive(out: seq<Contact>, c: Contact)
    requires ValidIds(ContactIds(out)) && c in out && Sighted(out, c.id) == Seen
    ensures c.state != StateUp
  {
    var i :| 0 <= i < |out| && out[i] == c;
    SightedAt(out, i);
  }

  lemma SameContact(out: seq<Contact>, c: Contact, d: Contact)
    requires ValidIds(ContactIds(out)) && c in out && d in out && c.id == d.id
    ensures c == d
  {
    var i :| 0 <= i < |out| && out[i] == c;
    var j :| 0 <= j < |out| && out[j] == d;
    assert ContactIds(out)[i] == ContactIds(out)[j];
  }

  lemma RunAgeStart(cfg: Config, states: seq<State>, frames: seq<Frame>, outs: seq<seq<Contact>>, n: nat, c: Contact)
    returns (a: Contact)
    requires cfg.liftOffHoldFrames >= 0 && IsRun(cfg, states, frames, outs) && n < |frames|
    requires c in outs[n] && LifeNew in c.lifeFlags && Sighted(outs[n], c.id) == Seen
    ensures a in Admitted(cfg, frames[n]) && a.x == c.x && a.y == c.y && a.signalSum == c.signalSum && a.area == c.area
    ensures c.state == StateDown && AtAge(states[n + 1].tracks, c.id, 1, LeftAfter(HeldBack(cfg, a), 1))
  {
    RunKeepsState(cfg, states, frames, outs, n);
    RunReportsDistinctIds(cfg, states, frames, outs, n);
    assert StepAt(cfg, states, frames, outs, n);
    SeenIsLive(outs[n], c);
    a := AgeStart(cfg, states[n], frames[n], outs[n], states[n + 1], c);
  }

  lemma RunAgeStep(cfg: Config, states: seq<State>, frames: seq<Frame>, outs: seq<seq<Contact>>, n: nat, c: Contact,
                   age: int, left: int)
    requires cfg.liftOffHoldFrames >= 0 && IsRun(cfg, states, frames, outs) && n < |frames|
    requires c in outs[n] && Sighted(outs[n], c.id) == Seen && AtAge(states[n].tracks, c.id, age, left)
    ensures AtAge(states[n + 1].tracks, c.id, age + 1, left - (if left > 0 then 1 else 0))
    ensures c.state == if age <= 1 || left > 0 then StateDown else StateMove
  {
    RunKeepsState(cfg, states, frames, outs, n);
    RunReportsDistinctIds(cfg, states, frames, outs, n);
    assert StepAt(cfg, states, frames, outs, n);
    SeenIsLive(outs[n], c);
    AgeStep(cfg, states[n], frames[n], outs[n], states[n + 1], c, age, left);
  }

  /** A touch that stays is a Down for exactly its first two frames, or for as many as it is held back if that is more,
      and a Move from then on. */
  lemma DownLasts(cfg: Config, states: seq<State>, frames: seq<Frame>, outs: seq<seq<Contact>>, first: Contact,
                  start: nat, n: nat, c: Contact)
    returns (a: Contact)
    requires cfg.liftOffHoldFrames >= 0 && IsRun(cfg, states, frames, outs) && start <= n < |frames|
    requires first in outs[start] && LifeNew in first.lifeFlags && SeenFrom(outs, first.id, start, n + 1)
    requires c in outs[n] && c.id == first.id
    ensures a in Admitted(cfg, frames[start]) && a.x == first.x && a.y == first.y
    ensures a.signalSum == first.signalSum && a.area == first.area
    ensures c.state == if n - start < Max(2, HeldBack(cfg, a)) then StateDown else StateMove
  {
    a := RunAgeStart(cfg, states, frames, outs, start, first);
    var held := HeldBack(cfg, a);
    if n == start {
      RunReportsDistinctIds(cfg, states, frames, outs, n);
      SameContact(outs[n], c, first);
      return;
    }
    for j := start + 1 to n
      invariant AtAge(states[j].tracks, first.id, j - start, LeftAfter(held, j - start))
    {
      var x := SeenContact(outs[j], first.id);
      RunAgeStep(cfg, states, frames, outs, j, x, j - start, LeftAfter(held, j - start));
    }
    RunAgeStep(cfg, states, frames, outs, n, c, n - start, LeftAfter(held, n - start));
  }
}
