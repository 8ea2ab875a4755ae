/** The tracker over whole runs: what every frame keeps, and the life of one id. */
module TrackerLife {
  import opened EngineTypes
  import opened Matching
  import opened TrackerModel
  import opened TrackerFrame

  // ----- the ghost filter takes a contact and its track together -----

  lemma {:induction false} FilteredContacts(out: seq<Contact>, gone: set<int>)
    ensures forall c :: c in WithoutContacts(out, gone) <==> c in out && !(Filterable(c) && c.id in gone)
    ensures ValidIds(ContactIds(out)) ==> ValidIds(ContactIds(WithoutContacts(out, gone)))
  {
    if |out| > 0 {
      var init, c := out[..|out| - 1], out[|out| - 1];
      FilteredContacts(init, gone);
      assert out == init + [c];
      if ValidIds(ContactIds(out)) { ContactsStayValid(init, c, WithoutContacts(init, gone)); }
    }
  }

  /** Ids stay valid when some contacts before the last are left out. */
  lemma ContactsStayValid(init: seq<Contact>, c: Contact, some: seq<Contact>)
    requires ValidIds(ContactIds(init + [c])) && (forall x :: x in some ==> x in init)
    requires ValidIds(ContactIds(init)) ==> ValidIds(ContactIds(some))
    ensures ValidIds(ContactIds(some)) && ValidIds(ContactIds(some + [c]))
  {
    var ids := ContactIds(init + [c]);
    assert ContactIds(init) == ids[..|init|] && ids[|init|] == c.id;
    forall i | 0 <= i < |some| ensures some[i].id != c.id {
      var x := some[i];
      assert x in some && x in init;
      var j :| 0 <= j < |init| && init[j] == x;
      assert ids[j] != ids[|init|];
    }
    assert ContactIds(some + [c]) == ContactIds(some) + [c.id];
  }

  lemma {:induction false} FilteredTracks(tracks: seq<Track>, gone: set<int>)
    ensures forall t :: t in WithoutTracks(tracks, gone) <==> t in tracks && !(1 <= t.id <= MAX_TOUCHES && t.id in gone)
    ensures ValidIds(Ids(tracks)) ==> ValidIds(Ids(WithoutTracks(tracks, gone)))
  {
    if |tracks| > 0 {
      var init, t := tracks[..|tracks| - 1], tracks[|tracks| - 1];
      FilteredTracks(init, gone);
      assert tracks == init + [t];
      if ValidIds(Ids(tracks)) { TracksStayValid(init, t, WithoutTracks(init, gone)); }
    }
  }

  lemma TracksStayValid(init: seq<Track>, t: Track, some: seq<Track>)
    requires ValidIds(Ids(init + [t])) && (forall x :: x in some ==> x in init)
    requires ValidIds(Ids(init)) ==> ValidIds(Ids(some))
    ensures ValidIds(Ids(some)) && ValidIds(Ids(some + [t]))
  {
    var ids := Ids(init + [t]);
    assert Ids(init) == ids[..|init|] && ids[|init|] == t.id;
    forall i | 0 <= i < |some| ensures some[i].id != t.id {
      var x := some[i];
      assert x in some && x in init;
      var j :| 0 <= j < |init| && init[j] == x;
      assert ids[j] != ids[|init|];
    }
    assert Ids(some + [t]) == Ids(some) + [t.id];
  }

  lemma UnghostedKeeps(cfg: Config, b: Build, d: int)
    requires TracksOk(cfg, b.next) && ValidIds(ContactIds(b.out))
    ensures var g := Unghosted(cfg, b);
      && TracksOk(cfg, g.next) && ValidIds(ContactIds(g.out)) && g.seed == b.seed
      && (forall c :: c in g.out ==> c in b.out)
      && ((Sighted(g.out, d) == Sighted(b.out, d) && Missing(g.next, d) == Missing(b.next, d))
          || (cfg.rxGhostFilterEnabled && Sighted(g.out, d) == Silent && Missing(g.next, d) == None))
  {
    var g := Unghosted(cfg, b);
    if cfg.rxGhostFilterEnabled && |b.out| > 1 {
      var gone := GhostIds(cfg, b.out, |b.out|);
      FilteredContacts(b.out, gone);
      FilteredTracks(b.next, gone);
      forall i | 0 <= i < |g.next|
        ensures 0 <= g.next[i].missed <= cfg.liftOffHoldFrames + 1
        ensures g.next[i].upEventEmitted <==> g.next[i].missed == cfg.liftOffHoldFrames + 1
      {
        assert g.next[i] in b.next;
      }
      GhostFate(cfg, b, g, gone, d);
    }
  }

  lemma GhostFate(cfg: Config, b: Build, g: Build, gone: set<int>, d: int)
    requires ValidIds(ContactIds(b.out)) && ValidIds(Ids(b.next))
    requires ValidIds(ContactIds(g.out)) && ValidIds(Ids(g.next))
    requires gone == GhostIds(cfg, b.out, |b.out|)
    requires forall c :: c in g.out <==> c in b.out && !(Filterable(c) && c.id in gone)
    requires forall t :: t in g.next <==> t in b.next && !(1 <= t.id <= MAX_TOUCHES && t.id in gone)
    ensures if d in gone then Sighted(g.out, d) == Silent && Missing(g.next, d) == None
            else Sighted(g.out, d) == Sighted(b.out, d) && Missing(g.next, d) == Missing(b.next, d)
  {
    if d in gone {
      var w := GhostContact(cfg, b.out, d);
      GoneContact(b.out, g.out, gone, w);
      forall k | 0 <= k < |g.next| ensures g.next[k].id != d {
        assert g.next[k] in b.next;
      }
    }
  }

  lemma GhostContact(cfg: Config, out: seq<Contact>, d: int) returns (w: Contact)
    requires d in GhostIds(cfg, out, |out|)
    ensures w in out && Filterable(w) && w.id == d
  {
    var i, j :| 0 <= i < |out| && i < j < |out| && Ghosts(cfg, out[i], out[j]) && d == Weaker(out[i], out[j]).id;
    w := Weaker(out[i], out[j]);
  }

  lemma GoneContact(out: seq<Contact>, rest: seq<Contact>, gone: set<int>, w: Contact)
    requires ValidIds(ContactIds(out)) && w in out && Filterable(w) && w.id in gone
    requires forall c :: c in rest <==> c in out && !(Filterable(c) && c.id in gone)
    ensures Sighted(rest, w.id) == Silent
  {
    var j :| 0 <= j < |out| && out[j] == w;
    forall k | 0 <= k < |rest| ensures rest[k].id != w.id {
      assert rest[k] in out;
      var n :| 0 <= n < |out| && out[n] == rest[k];
      assert ContactIds(out)[n] == out[n].id && ContactIds(out)[j] == w.id;
    }
  }

  // ----- one step -----

  /** A frame in which an id can vanish without waiting. */
  ghost predicate MayClear(cfg: Config, frame: Frame) {
    cfg.rxGhostFilterEnabled || GloballySuppressed(cfg, frame.pen)
  }

  /** A step with its pairing in sight. */
  lemma StepPairs(cfg: Config, s: State, frame: Frame, out: seq<Contact>, s': State)
    returns (m: seq<int>, always: seq<bool>, live: Build, src: seq<int>, b: Build, kept: seq<int>, ups: seq<int>)
    requires cfg.liftOffHoldFrames >= 0 && StateOk(cfg, s) && Step(cfg, s, frame, out, s')
    requires !GloballySuppressed(cfg, frame.pen)
    ensures FrameOk(cfg, s, frame, m, always, live, src, b, kept, ups)
    ensures out == Unghosted(cfg, b).out && s'.tracks == Unghosted(cfg, b).next && s'.nextIdSeed == b.seed
    ensures Paired(cfg, Admitted(cfg, frame), s.tracks, m, always)
  {
    m, always :|
      && Paired(cfg, Admitted(cfg, frame), s.tracks, m, always)
      && IsMatching(m, |Admitted(cfg, frame)|, |s.tracks|)
      && var b := Unghosted(cfg, Built(cfg, s, frame, m, always));
         out == b.out && s'.tracks == b.next && s'.nextIdSeed == b.seed;
    b := Built(cfg, s, frame, m, always);
    live, src, kept, ups := FrameParts(cfg, s, frame, m, always);
  }

  /** The pieces behind an unsuppressed step, without the pairing. */
  lemma StepParts(cfg: Config, s: State, frame: Frame, out: seq<Contact>, s': State)
    returns (m: seq<int>, always: seq<bool>, live: Build, src: seq<int>, b: Build, kept: seq<int>, ups: seq<int>)
    requires cfg.liftOffHoldFrames >= 0 && StateOk(cfg, s) && Step(cfg, s, frame, out, s')
    requires !GloballySuppressed(cfg, frame.pen)
    ensures FrameOk(cfg, s, frame, m, always, live, src, b, kept, ups)
    ensures out == Unghosted(cfg, b).out && s'.tracks == Unghosted(cfg, b).next && s'.nextIdSeed == b.seed
  {
    m, always, live, src, b, kept, ups := StepPairs(cfg, s, frame, out, s');
  }

  lemma StepFate(cfg: Config, s: State, frame: Frame, out: seq<Contact>, s': State, d: int)
    requires cfg.liftOffHoldFrames >= 0 && StateOk(cfg, s) && Step(cfg, s, frame, out, s')
    ensures StateOk(cfg, s') && ValidIds(ContactIds(out))
    ensures Fate(cfg.liftOffHoldFrames, Missing(s.tracks, d), Sighted(out, d), Missing(s'.tracks, d))
         || (MayClear(cfg, frame) && Sighted(out, d) == Silent && Missing(s'.tracks, d) == None)
  {
    if !GloballySuppressed(cfg, frame.pen) {
      var m, always, live, src, b, kept, ups := StepParts(cfg, s, frame, out, s');
      FrameKeepsTracks(cfg, s, frame, m, always, live, src, b, kept, ups);
      FateOfId(cfg, s, frame, m, always, live, src, b, kept, ups, d);
      UnghostedKeeps(cfg, b, d);
    }
  }

  /** Every frame keeps the state sound, reports distinct ids, and treats each id as `Fate` says
      (or clears it, when the ghost filter or a global pen suppression does). */
  lemma StepKeepsState(cfg: Config, s: State, frame: Frame, out: seq<Contact>, s': State, d: int)
    requires cfg.liftOffHoldFrames >= 0 && StateOk(cfg, s) && Step(cfg, s, frame, out, s')
    ensures StateOk(cfg, s') && ValidIds(ContactIds(out)) && |out| <= MAX_TOUCHES && |s'.tracks| <= MAX_TOUCHES
    ensures Fate(cfg.liftOffHoldFrames, Missing(s.tracks, d), Sighted(out, d), Missing(s'.tracks, d))
         || (MayClear(cfg, frame) && Sighted(out, d) == Silent && Missing(s'.tracks, d) == None)
  {
    StepFate(cfg, s, frame, out, s', d);
    DistinctBelow(ContactIds(out), MAX_TOUCHES);
    DistinctBelow(Ids(s'.tracks), MAX_TOUCHES);
  }

  lemma NewContactIsUnused(cfg: Config, s: State, frame: Frame, m: seq<int>, always: seq<bool>, live: Build,
                           src: seq<int>, b: Build, kept: seq<int>, ups: seq<int>, i: nat)
    requires FrameOk(cfg, s, frame, m, always, live, src, b, kept, ups)
    requires i < |b.out| && LifeNew in b.out[i].lifeFlags
    ensures b.out[i].id !in Ids(s.tracks)
  {
    forall j | |live.out| <= j < |b.out| ensures LifeNew !in b.out[j].lifeFlags {
      var p := ups[j - |live.out|];
      assert b.out[|live.out| + (j - |live.out|)] == UpContact(Aged(cfg, s.tracks[p]), p);
    }
    var contacts, aft := Admitted(cfg, frame), AftContext(cfg, s, frame.pen);
    assert b.out[i] == live.out[i];
    LiveEntry(cfg, aft, s.tracks, contacts[src[i]], m[src[i]], always[src[i]], live.out[i], live.next[i]);
  }

  /** A contact flagged as new carries an id no stored track had. */
  lemma NewIdsAreUnused(cfg: Config, s: State, frame: Frame, out: seq<Contact>, s': State, c: Contact)
    requires cfg.liftOffHoldFrames >= 0 && StateOk(cfg, s) && Step(cfg, s, frame, out, s')
    requires c in out && LifeNew in c.lifeFlags
    ensures c.id !in Ids(s.tracks)
  {
    var m, always, live, src, b, kept, ups := StepParts(cfg, s, frame, out, s');
    FrameKeepsTracks(cfg, s, frame, m, always, live, src, b, kept, ups);
    UnghostedKeeps(cfg, b, c.id);
    assert c in b.out;
    NewOfBuild(cfg, s, frame, m, always, live, src, b, kept, ups, c);
  }

  lemma NewOfBuild(cfg: Config, s: State, frame: Frame, m: seq<int>, always: seq<bool>, live: Build, src: seq<int>,
                   b: Build, kept: seq<int>, ups: seq<int>, c: Contact)
    requires FrameOk(cfg, s, frame, m, always, live, src, b, kept, ups)
    requires c in b.out && LifeNew in c.lifeFlags
    ensures c.id !in Ids(s.tracks)
  {
    var i :| 0 <= i < |b.out| && b.out[i] == c;
    NewContactIsUnused(cfg, s, frame, m, always, live, src, b, kept, ups, i);
  }

  /** `c` is reported at its own position, with its own signal, and stored there. */
  ghost predicate Reported(c: Contact, out: seq<Contact>, tracks: seq<Track>) {
    exists i :: 0 <= i < |out| && i < |tracks| && out[i].id == tracks[i].id && out[i].state != StateUp
      && out[i].x == tracks[i].x == c.x && out[i].y == tracks[i].y == c.y
      && out[i].area == c.area && out[i].signalSum == c.signalSum
  }

  lemma ContactReported(cfg: Config, s: State, frame: Frame, m: seq<int>, always: seq<bool>, live: Build, src: seq<int>,
                        b: Build, kept: seq<int>, ups: seq<int>, k: nat)
    requires FrameOk(cfg, s, frame, m, always, live, src, b, kept, ups)
    requires k < |Admitted(cfg, frame)|
    ensures var c := Admitted(cfg, frame)[k];
            Reported(c, b.out, b.next) || Rejected(cfg, c) || AllIdsUsed(b.next, s.tracks)
  {
    var contacts, aft := Admitted(cfg, frame), AftContext(cfg, s, frame.pen);
    if k in src {
      var i :| 0 <= i < |src| && src[i] == k;
      LiveEntry(cfg, aft, s.tracks, contacts[k], m[k], always[k], live.out[i], live.next[i]);
      assert b.out[i] == live.out[i] && b.next[i] == live.next[i];
    } else if !Rejected(cfg, contacts[k]) {
      forall d | 1 <= d <= MAX_TOUCHES ensures d in Ids(b.next) || d in Ids(s.tracks) {
        if d in Ids(live.next) {
          var i :| 0 <= i < |live.next| && Ids(live.next)[i] == d;
          assert Ids(b.next)[i] == d;
        }
      }
    }
  }

  /** No admitted contact disappears silently: with the ghost filter off each one is reported and stored,
      unless it was too weak to start a track or every id was taken. */
  lemma NoContactLost(cfg: Config, s: State, frame: Frame, out: seq<Contact>, s': State, k: nat)
    requires cfg.liftOffHoldFrames >= 0 && StateOk(cfg, s) && Step(cfg, s, frame, out, s')
    requires !MayClear(cfg, frame) && k < |Admitted(cfg, frame)|
    ensures var c := Admitted(cfg, frame)[k];
            Reported(c, out, s'.tracks) || Rejected(cfg, c) || AllIdsUsed(s'.tracks, s.tracks)
  {
    var m, always, live, src, b, kept, ups := StepParts(cfg, s, frame, out, s');
    ContactReported(cfg, s, frame, m, always, live, src, b, kept, ups, k);
  }

  // ----- runs -----

  ghost predicate StepAt(cfg: Config, states: seq<State>, frames: seq<Frame>, outs: seq<seq<Contact>>, i: nat)
    requires |states| == |frames| + 1 && |outs| == |frames| && i < |frames|
  {
    Step(cfg, states[i], frames[i], outs[i], states[i + 1])
  }

  /** `states[i]` turns into `states[i + 1]` on `frames[i]` and reports `outs[i]`, from power-up. */
  ghost predicate IsRun(cfg: Config, states: seq<State>, frames: seq<Frame>, outs: seq<seq<Contact>>) {
    && |states| == |frames| + 1 && |outs| == |frames| && states[0] == INIT
    && forall i: nat {:trigger StepAt(cfg, states, frames, outs, i)} :: i < |frames| ==>
         StepAt(cfg, states, frames, outs, i)
  }

  lemma StepAtKeepsState(cfg: Config, states: seq<State>, frames: seq<Frame>, outs: seq<seq<Contact>>, i: nat)
    requires |states| == |frames| + 1 && |outs| == |frames| && i < |frames|
    requires cfg.liftOffHoldFrames >= 0 && StateOk(cfg, states[i]) && StepAt(cfg, states, frames, outs, i)
    ensures StateOk(cfg, states[i + 1])
  {
    StepKeepsState(cfg, states[i], frames[i], outs[i], states[i + 1], 0);
  }

  lemma {:induction false} RunKeepsState(cfg: Config, states: seq<State>, frames: seq<Frame>, outs: seq<seq<Contact>>,
                                         n: nat)
    requires cfg.liftOffHoldFrames >= 0 && IsRun(cfg, states, frames, outs) && n <= |frames|
    ensures StateOk(cfg, states[n])
  {
    for i := 0 to n
      invariant StateOk(cfg, states[i])
    {
      StepAtKeepsState(cfg, states, frames, outs, i);
    }
  }

  /** Every frame of every run reports distinct ids between 1 and 20. */
  lemma RunReportsDistinctIds(cfg: Config, states: seq<State>, frames: seq<Frame>, outs: seq<seq<Contact>>, n: nat)
    requires cfg.liftOffHoldFrames >= 0 && IsRun(cfg, states, frames, outs) && n < |frames|
    ensures ValidIds(ContactIds(outs[n])) && |outs[n]| <= MAX_TOUCHES
  {
    RunKeepsState(cfg, states, frames, outs, n);
    assert StepAt(cfg, states, frames, outs, n);
    StepKeepsState(cfg, states[n], frames[n], outs[n], states[n + 1], 0);
  }

  ghost predicate Uncleared(cfg: Config, frames: seq<Frame>) {
    forall i :: 0 <= i < |frames| ==> !MayClear(cfg, frames[i])
  }

  // ----- the life of one id -----

  /** What the reports say about an id frame by frame, and how long its track has been missing. */
  ghost predicate IsLife(hold: int, e: seq<Sighting>, w: seq<Option<int>>) {
    && |w| == |e| + 1 && w[0] == None
    && forall i :: 0 <= i < |e| ==> Fate(hold, w[i], e[i], w[i + 1])
  }

  ghost function Sightings(outs: seq<seq<Contact>>, d: int): (e: seq<Sighting>)
    ensures |e| == |outs| && forall i :: 0 <= i < |e| ==> e[i] == Sighted(outs[i], d)
  {
    seq(|outs|, i requires 0 <= i < |outs| => Sighted(outs[i], d))
  }

  ghost function Absences(states: seq<State>, d: int): (w: seq<Option<int>>)
    ensures |w| == |states| && forall i :: 0 <= i < |w| ==> w[i] == Missing(states[i].tracks, d)
  {
    seq(|states|, i requires 0 <= i < |states| => Missing(states[i].tracks, d))
  }

  /** In a run without clearing frames every id lives a life. */
  lemma RunIsLife(cfg: Config, states: seq<State>, frames: seq<Frame>, outs: seq<seq<Contact>>, d: int)
    requires cfg.liftOffHoldFrames >= 0 && IsRun(cfg, states, frames, outs) && Uncleared(cfg, frames)
    ensures IsLife(cfg.liftOffHoldFrames, Sightings(outs, d), Absences(states, d))
  {
    var e, w := Sightings(outs, d), Absences(states, d);
    forall n | 0 <= n < |frames| ensures Fate(cfg.liftOffHoldFrames, w[n], e[n], w[n + 1]) {
      RunKeepsState(cfg, states, frames, outs, n);
      assert StepAt(cfg, states, frames, outs, n);
      StepKeepsState(cfg, states[n], frames[n], outs[n], states[n + 1], d);
    }
  }

  /** Once an id stops being seen its lift-off is reported exactly `hold + 1` frames later and never
      again, and its track is dropped in the frame after that. */
  lemma {:induction false} ExactlyOneUp(hold: nat, e: seq<Sighting>, w: seq<Option<int>>, t: nat, n: nat)
    requires IsLife(hold, e, w) && t <= n < |e| && e[t] == Seen
    requires forall j :: t < j <= n ==> e[j] != Seen
    ensures n > t ==> e[n] == if n - t == hold + 1 then Lifted else Silent
    ensures w[n + 1] == if n - t <= hold + 1 then Some(n - t) else None
  {
    assert Fate(hold, w[n], e[n], w[n + 1]);
    if n > t {
      ExactlyOneUp(hold, e, w, t, n - 1);
    }
  }

  /** A track missing for `k` frames was seen in the frame before them. */
  lemma {:induction false} MissingSince(hold: nat, e: seq<Sighting>, w: seq<Option<int>>, n: nat)
    requires IsLife(hold, e, w) && n < |w| && w[n].Some?
    ensures var k := w[n].value; 0 <= k < n && e[n - 1 - k] == Seen && forall j :: n - k <= j < n ==> e[j] != Seen
  {
    if n > 0 && e[n - 1] != Seen {
      MissingSince(hold, e, w, n - 1);
    }
  }

  /** Every lift-off ends a disappearance that began `hold + 1` frames earlier, silent in between. */
  lemma UpHasCause(hold: nat, e: seq<Sighting>, w: seq<Option<int>>, n: nat)
    requires IsLife(hold, e, w) && n < |e| && e[n] == Lifted
    ensures n >= hold + 1 && e[n - hold - 1] == Seen && forall j :: n - hold - 1 < j < n ==> e[j] == Silent
  {
    assert Fate(hold, w[n], e[n], w[n + 1]);
    MissingSince(hold, e, w, n);
    forall j | n - hold - 1 < j < n ensures e[j] == Silent {
      ExactlyOneUp(hold, e, w, n - hold - 1, j);
    }
  }

  /** An id is given to a fresh contact at the earliest two frames after its lift-off. */
  lemma NoEarlyReuse(cfg: Config, states: seq<State>, frames: seq<Frame>, outs: seq<seq<Contact>>, c: Contact, n: nat,
                     f: nat)
    requires cfg.liftOffHoldFrames >= 0 && IsRun(cfg, states, frames, outs) && Uncleared(cfg, frames)
    requires n < f < |frames| && Sighted(outs[n], c.id) == Lifted
    requires c in outs[f] && LifeNew in c.lifeFlags
    ensures f >= n + 2
  {
    RunIsLife(cfg, states, frames, outs, c.id);
    assert Fate(cfg.liftOffHoldFrames, Absences(states, c.id)[n], Sightings(outs, c.id)[n],
      Absences(states, c.id)[n + 1]);
    RunKeepsState(cfg, states, frames, outs, f);
    assert StepAt(cfg, states, frames, outs, f);
    NewIdsAreUnused(cfg, states[f], frames[f], outs[f], states[f + 1], c);
  }
}
