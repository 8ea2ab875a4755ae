/** What one tracker frame does to every id: the invariants of the stored tracks, and the fate of each contact
    and track. */
module TrackerFrame {
  import opened EngineTypes
  import opened Matching
  import opened TrackerModel

  /** Stored tracks have distinct ids in range; a track is kept `hold + 1` frames after it was
      last seen, and its lift-off is out exactly in the last of them. */
  ghost predicate TracksOk(cfg: Config, tracks: seq<Track>) {
    && ValidIds(Ids(tracks))
    && forall i :: 0 <= i < |tracks| ==>
         && 0 <= tracks[i].missed <= cfg.liftOffHoldFrames + 1
         && (tracks[i].upEventEmitted <==> tracks[i].missed == cfg.liftOffHoldFrames + 1)
  }

  ghost predicate StateOk(cfg: Config, s: State) {
    TracksOk(cfg, s.tracks) && 1 <= s.nextIdSeed <= MAX_TOUCHES
  }

  /** Output and track `i` of a live build come from contact `src[i]`. */
  ghost predicate Comes(cfg: Config, aft: Aft, tracks: seq<Track>, c: Contact, pre: int, always: bool, o: Contact,
                        t: Track)
    requires -1 <= pre < |tracks|
  {
    if pre >= 0 then (o, t) == Follow(cfg, aft, tracks[pre], pre, c, always)
    else !Rejected(cfg, c) && t.id !in Ids(tracks) && (o, t) == Begin(cfg, aft, t.id, c)
  }

  ghost predicate AllIdsUsed(next: seq<Track>, tracks: seq<Track>) {
    forall d :: 1 <= d <= MAX_TOUCHES ==> d in Ids(next) || d in Ids(tracks)
  }

  ghost predicate LiveOk(cfg: Config, aft: Aft, tracks: seq<Track>, contacts: seq<Contact>, m: seq<int>,
                         always: seq<bool>, k: nat, b: Build, src: seq<int>)
    requires IsMatching(m, |contacts|, |tracks|) && |always| == |m| && k <= |m|
  {
    && |b.out| == |b.next| == |src|
    && ContactIds(b.out) == Ids(b.next) && ValidIds(Ids(b.next)) && 1 <= b.seed <= MAX_TOUCHES
    && (forall i :: 0 <= i < |src| ==> 0 <= src[i] < k)
    && (forall i :: 0 <= i < |src| ==>
          Comes(cfg, aft, tracks, contacts[src[i]], m[src[i]], always[src[i]], b.out[i], b.next[i]))
    && (forall i, j :: 0 <= i < j < |src| ==> src[i] < src[j])
    && PassedOver(cfg, tracks, contacts, m, k, b.next, src)
  }

  /** A contact left out has no track and is rejected, or found every id in use. */
  ghost predicate PassedOver(cfg: Config, tracks: seq<Track>, contacts: seq<Contact>, m: seq<int>, k: nat,
                             next: seq<Track>, src: seq<int>)
    requires k <= |m| == |contacts|
  {
    forall c :: 0 <= c < k && c !in src ==> m[c] < 0 && (Rejected(cfg, contacts[c]) || AllIdsUsed(next, tracks))
  }

  lemma PassedOverGrows(cfg: Config, tracks: seq<Track>, contacts: seq<Contact>, m: seq<int>, k: nat, next: seq<Track>,
                        src: seq<int>, t: Track)
    requires 1 <= k <= |m| == |contacts| && PassedOver(cfg, tracks, contacts, m, k - 1, next, src)
    ensures PassedOver(cfg, tracks, contacts, m, k, next + [t], src + [k - 1])
  {
    assert Ids(next + [t]) == Ids(next) + [t.id];
    forall c | 0 <= c < k && c !in src + [k - 1]
      ensures m[c] < 0 && (Rejected(cfg, contacts[c]) || AllIdsUsed(next + [t], tracks))
    {
      var more := src + [k - 1];
      assert more[|src|] == k - 1;
      assert c != k - 1 && c !in src;
    }
  }

  /** Appending a track with a new id. */
  lemma PushIds(out: seq<Contact>, next: seq<Track>, o: Contact, t: Track)
    requires ContactIds(out) == Ids(next) && ValidIds(Ids(next))
    requires o.id == t.id && 1 <= t.id <= MAX_TOUCHES && t.id !in Ids(next)
    ensures Push(out, o) == out + [o] && Push(next, t) == next + [t]
    ensures ContactIds(out + [o]) == Ids(next + [t]) == Ids(next) + [t.id]
    ensures ValidIds(Ids(next + [t]))
  {
    RoomForOneMore(Ids(next), t.id);
    assert Ids(next + [t]) == Ids(next) + [t.id];
    assert ContactIds(out + [o]) == ContactIds(out) + [o.id];
  }

  lemma {:induction false} LiveKeepsIds(cfg: Config, aft: Aft, tracks: seq<Track>, contacts: seq<Contact>, m: seq<int>,
                                        always: seq<bool>, seed: int, k: nat) returns (src: seq<int>)
    requires IsMatching(m, |contacts|, |tracks|) && |always| == |m| && k <= |m|
    requires ValidIds(Ids(tracks)) && 1 <= seed <= MAX_TOUCHES
    ensures LiveOk(cfg, aft, tracks, contacts, m, always, k, Live(cfg, aft, tracks, contacts, m, always, seed, k), src)
  {
    if k == 0 { return []; }
    src := LiveKeepsIds(cfg, aft, tracks, contacts, m, always, seed, k - 1);
    var a := Live(cfg, aft, tracks, contacts, m, always, seed, k - 1);
    if m[k - 1] >= 0 {
      FollowStepKeepsIds(cfg, aft, tracks, contacts, m, always, k, a, src);
      src := src + [k - 1];
    } else {
      src := BeginStepKeepsIds(cfg, aft, tracks, contacts, m, always, k, a, src);
    }
  }

  /** One more entry, with an id no entry has yet. */
  lemma LiveGrows(cfg: Config, aft: Aft, tracks: seq<Track>, contacts: seq<Contact>, m: seq<int>, always: seq<bool>,
                  k: nat, a: Build, src: seq<int>, o: Contact, t: Track, seed: int)
    requires IsMatching(m, |contacts|, |tracks|) && |always| == |m| && 1 <= k <= |m|
    requires LiveOk(cfg, aft, tracks, contacts, m, always, k - 1, a, src)
    requires o.id == t.id && 1 <= t.id <= MAX_TOUCHES && t.id !in Ids(a.next) && 1 <= seed <= MAX_TOUCHES
    requires Comes(cfg, aft, tracks, contacts[k - 1], m[k - 1], always[k - 1], o, t)
    ensures LiveOk(cfg, aft, tracks, contacts, m, always, k, Build(Push(a.out, o), Push(a.next, t), seed),
            src + [k - 1])
  {
    PushIds(a.out, a.next, o, t);
    PassedOverGrows(cfg, tracks, contacts, m, k, a.next, src, t);
  }

  lemma FollowedIsNew(cfg: Config, aft: Aft, tracks: seq<Track>, contacts: seq<Contact>, m: seq<int>, always: seq<bool>,
                      k: nat, a: Build, src: seq<int>)
    requires IsMatching(m, |contacts|, |tracks|) && |always| == |m| && 1 <= k <= |m|
    requires ValidIds(Ids(tracks)) && LiveOk(cfg, aft, tracks, contacts, m, always, k - 1, a, src)
    requires m[k - 1] >= 0
    ensures tracks[m[k - 1]].id !in Ids(a.next) && 1 <= tracks[m[k - 1]].id <= MAX_TOUCHES
  {
    var pre := m[k - 1];
    assert Ids(tracks)[pre] == tracks[pre].id;
    forall i | 0 <= i < |src| ensures a.next[i].id != tracks[pre].id {
      assert Comes(cfg, aft, tracks, contacts[src[i]], m[src[i]], always[src[i]], a.out[i], a.next[i]);
      if m[src[i]] >= 0 {
        assert m[src[i]] != pre;
        assert Ids(tracks)[m[src[i]]] != Ids(tracks)[pre];
      }
    }
  }

  lemma FollowStepKeepsIds(cfg: Config, aft: Aft, tracks: seq<Track>, contacts: seq<Contact>, m: seq<int>,
                           always: seq<bool>, k: nat, a: Build, src: seq<int>)
    requires IsMatching(m, |contacts|, |tracks|) && |always| == |m| && 1 <= k <= |m|
    requires ValidIds(Ids(tracks)) && LiveOk(cfg, aft, tracks, contacts, m, always, k - 1, a, src)
    requires m[k - 1] >= 0
    ensures LiveOk(cfg, aft, tracks, contacts, m, always, k,
                   LiveStep(cfg, aft, tracks, contacts[k - 1], m[k - 1], always[k - 1], a), src + [k - 1])
  {
    var ot := Follow(cfg, aft, tracks[m[k - 1]], m[k - 1], contacts[k - 1], always[k - 1]);
    FollowedIsNew(cfg, aft, tracks, contacts, m, always, k, a, src);
    LiveGrows(cfg, aft, tracks, contacts, m, always, k, a, src, ot.0, ot.1, a.seed);
  }

  /** A contact that starts no track. */
  lemma LiveStays(cfg: Config, aft: Aft, tracks: seq<Track>, contacts: seq<Contact>, m: seq<int>, always: seq<bool>,
                  k: nat, a: Build, src: seq<int>)
    requires IsMatching(m, |contacts|, |tracks|) && |always| == |m| && 1 <= k <= |m|
    requires LiveOk(cfg, aft, tracks, contacts, m, always, k - 1, a, src)
    requires m[k - 1] < 0 && (Rejected(cfg, contacts[k - 1]) || AllIdsUsed(a.next, tracks))
    ensures LiveOk(cfg, aft, tracks, contacts, m, always, k, a, src)
  {
  }

  lemma BeginStepKeepsIds(cfg: Config, aft: Aft, tracks: seq<Track>, contacts: seq<Contact>, m: seq<int>,
                          always: seq<bool>, k: nat, a: Build, src: seq<int>) returns (src': seq<int>)
    requires IsMatching(m, |contacts|, |tracks|) && |always| == |m| && 1 <= k <= |m|
    requires LiveOk(cfg, aft, tracks, contacts, m, always, k - 1, a, src)
    requires m[k - 1] < 0
    ensures LiveOk(cfg, aft, tracks, contacts, m, always, k,
                   LiveStep(cfg, aft, tracks, contacts[k - 1], m[k - 1], always[k - 1], a), src')
  {
    var c := contacts[k - 1];
    var id := FirstFree(a.seed, Ids(a.next), Ids(tracks), 0);
    FirstFreeIsFree(a.seed, Ids(a.next), Ids(tracks), 0);
    if id == 0 || Rejected(cfg, c) {
      AllocationFailsOnlyWhenFull(a.seed, Ids(a.next), Ids(tracks));
      LiveStays(cfg, aft, tracks, contacts, m, always, k, a, src);
      return src;
    }
    var ot := Begin(cfg, aft, id, c);
    LiveGrows(cfg, aft, tracks, contacts, m, always, k, a, src, ot.0, ot.1, id % MAX_TOUCHES + 1);
    return src + [k - 1];
  }

  // ----- lift-offs -----

  /** An unmatched track as it is kept for the next frame. */
  function Waiting(cfg: Config, t: Track): Track {
    Aged(cfg, t).(vx := 0.0, vy := 0.0)
  }

  /** After the first `k` tracks: the live entries, then one entry for each unmatched track still kept
      (`kept` lists them) and one lift-off for each track whose hold just ran out (`ups` lists them). */
  ghost predicate LiftOk(cfg: Config, tracks: seq<Track>, m: seq<int>, live: Build, k: nat, b: Build, kept: seq<int>,
                         ups: seq<int>)
    requires k <= |tracks|
  {
    && ValidIds(Ids(b.next)) && ValidIds(ContactIds(b.out)) && b.seed == live.seed
    && (forall d :: d in ContactIds(b.out) ==> d in Ids(b.next))
    && KeptOk(cfg, tracks, m, live.next, k, b.next, kept)
    && UpsOk(cfg, tracks, m, live.out, k, b.out, ups)
  }

  ghost predicate KeptOk(cfg: Config, tracks: seq<Track>, m: seq<int>, start: seq<Track>, k: nat, next: seq<Track>,
                         kept: seq<int>)
    requires k <= |tracks|
  {
    && |next| == |start| + |kept| && start <= next
    && (forall i :: 0 <= i < |kept| ==> 0 <= kept[i] < k && kept[i] !in m && Kept(cfg, tracks[kept[i]]))
    && (forall i :: 0 <= i < |kept| ==> next[|start| + i] == Waiting(cfg, tracks[kept[i]]))
    && (forall p :: 0 <= p < k && p !in m && Kept(cfg, tracks[p]) ==> p in kept)
  }

  ghost predicate UpsOk(cfg: Config, tracks: seq<Track>, m: seq<int>, start: seq<Contact>, k: nat, out: seq<Contact>,
                        ups: seq<int>)
    requires k <= |tracks|
  {
    && |out| == |start| + |ups| && start <= out
    && (forall i :: 0 <= i < |ups| ==> 0 <= ups[i] < k && ups[i] !in m && Lifts(cfg, tracks[ups[i]]))
    && (forall i :: 0 <= i < |ups| ==> out[|start| + i] == UpContact(Aged(cfg, tracks[ups[i]]), ups[i]))
    && (forall p :: 0 <= p < k && p !in m && Lifts(cfg, tracks[p]) ==> p in ups)
  }

  lemma KeptGrows(cfg: Config, tracks: seq<Track>, m: seq<int>, start: seq<Track>, k: nat, next: seq<Track>,
                  kept: seq<int>, next': seq<Track>)
    returns (more: seq<int>)
    requires 1 <= k <= |tracks| && k - 1 !in m && KeptOk(cfg, tracks, m, start, k - 1, next, kept)
    requires next' == if Kept(cfg, tracks[k - 1]) then next + [Waiting(cfg, tracks[k - 1])] else next
    ensures KeptOk(cfg, tracks, m, start, k, next', more)
  {
    more := kept;
    if Kept(cfg, tracks[k - 1]) {
      more := kept + [k - 1];
      assert more[|kept|] == k - 1;
      assert forall p :: p in kept ==> p in more;
    }
  }

  lemma UpsGrow(cfg: Config, tracks: seq<Track>, m: seq<int>, start: seq<Contact>, k: nat, out: seq<Contact>,
                ups: seq<int>, out': seq<Contact>)
    returns (more: seq<int>)
    requires 1 <= k <= |tracks| && k - 1 !in m && UpsOk(cfg, tracks, m, start, k - 1, out, ups)
    requires out' == if Lifts(cfg, tracks[k - 1]) then out + [UpContact(Aged(cfg, tracks[k - 1]), k - 1)] else out
    ensures UpsOk(cfg, tracks, m, start, k, out', more)
  {
    more := ups;
    if Lifts(cfg, tracks[k - 1]) {
      more := ups + [k - 1];
      assert more[|ups|] == k - 1;
      assert forall p :: p in ups ==> p in more;
    }
  }

  lemma {:induction false} LiftKeepsIds(cfg: Config, tracks: seq<Track>, m: seq<int>, live: Build, k: nat)
    returns (kept: seq<int>, ups: seq<int>)
    requires k <= |tracks| && cfg.liftOffHoldFrames >= 0 && TracksOk(cfg, tracks)
    requires ContactIds(live.out) == Ids(live.next) && ValidIds(Ids(live.next))
    requires forall p :: 0 <= p < |tracks| && p !in m ==> tracks[p].id !in Ids(live.next)
    ensures LiftOk(cfg, tracks, m, live, k, Lift(cfg, tracks, m, live, k), kept, ups)
  {
    if k == 0 {
      LiftStarts(cfg, tracks, m, live);
      return [], [];
    }
    kept, ups := LiftKeepsIds(cfg, tracks, m, live, k - 1);
    if k - 1 in m {
      LiftSkips(cfg, tracks, m, live, k, Lift(cfg, tracks, m, live, k - 1), kept, ups);
    } else {
      LiftedIsKept(cfg, tracks, k - 1);
      kept, ups := LiftStepKeepsIds(cfg, tracks, m, live, k, Lift(cfg, tracks, m, live, k - 1), kept, ups);
    }
  }

  lemma LiftStarts(cfg: Config, tracks: seq<Track>, m: seq<int>, live: Build)
    requires ContactIds(live.out) == Ids(live.next) && ValidIds(Ids(live.next))
    ensures LiftOk(cfg, tracks, m, live, 0, live, [], [])
  {
  }

  /** A matched track adds nothing. */
  lemma LiftSkips(cfg: Config, tracks: seq<Track>, m: seq<int>, live: Build, k: nat, a: Build, kept: seq<int>,
                  ups: seq<int>)
    requires 1 <= k <= |tracks| && k - 1 in m && LiftOk(cfg, tracks, m, live, k - 1, a, kept, ups)
    ensures LiftOk(cfg, tracks, m, live, k, a, kept, ups)
  {
  }

  lemma LiftedIsNew(cfg: Config, tracks: seq<Track>, m: seq<int>, live: Build, k: nat, a: Build, kept: seq<int>,
                    ups: seq<int>)
    requires 1 <= k <= |tracks| && ValidIds(Ids(tracks))
    requires tracks[k - 1].id !in Ids(live.next)
    requires LiftOk(cfg, tracks, m, live, k - 1, a, kept, ups)
    ensures tracks[k - 1].id !in Ids(a.next) && tracks[k - 1].id !in ContactIds(a.out)
    ensures 1 <= tracks[k - 1].id <= MAX_TOUCHES
  {
    var t := tracks[k - 1];
    assert Ids(tracks)[k - 1] == t.id;
    forall i | 0 <= i < |a.next| ensures a.next[i].id != t.id {
      if i < |live.next| {
        assert Ids(live.next)[i] == a.next[i].id;
      } else {
        var p := kept[i - |live.next|];
        assert a.next[|live.next| + (i - |live.next|)] == Waiting(cfg, tracks[p]);
        assert Ids(tracks)[p] != Ids(tracks)[k - 1];
      }
    }
  }

  /** One more track: `b` has its entry if it is kept, and its lift-off if it lifts. */
  lemma LiftGrows(cfg: Config, tracks: seq<Track>, m: seq<int>, live: Build, k: nat, a: Build, kept: seq<int>,
                  ups: seq<int>, b: Build)
    returns (kept': seq<int>, ups': seq<int>)
    requires 1 <= k <= |tracks| && k - 1 !in m && LiftOk(cfg, tracks, m, live, k - 1, a, kept, ups)
    requires b.next == if Kept(cfg, tracks[k - 1]) then a.next + [Waiting(cfg, tracks[k - 1])] else a.next
    requires b.out == if Lifts(cfg, tracks[k - 1]) then a.out + [UpContact(Aged(cfg, tracks[k - 1]), k - 1)] else a.out
    requires ValidIds(Ids(b.next)) && ValidIds(ContactIds(b.out)) && b.seed == a.seed
    requires forall d :: d in ContactIds(b.out) ==> d in Ids(b.next)
    ensures LiftOk(cfg, tracks, m, live, k, b, kept', ups')
  {
    kept' := KeptGrows(cfg, tracks, m, live.next, k, a.next, kept, b.next);
    ups' := UpsGrow(cfg, tracks, m, live.out, k, a.out, ups, b.out);
  }

  lemma LiftStepKeepsIds(cfg: Config, tracks: seq<Track>, m: seq<int>, live: Build, k: nat, a: Build, kept: seq<int>,
                         ups: seq<int>)
    returns (kept': seq<int>, ups': seq<int>)
    requires 1 <= k <= |tracks| && ValidIds(Ids(tracks)) && (Lifts(cfg, tracks[k - 1]) ==> Kept(cfg, tracks[k - 1]))
    requires k - 1 !in m && tracks[k - 1].id !in Ids(live.next)
    requires LiftOk(cfg, tracks, m, live, k - 1, a, kept, ups)
    ensures LiftOk(cfg, tracks, m, live, k, LiftStep(cfg, tracks[k - 1], k - 1, a), kept', ups')
  {
    var t := tracks[k - 1];
    LiftedIsNew(cfg, tracks, m, live, k, a, kept, ups);
    StepIds(cfg, t, k - 1, a);
    kept', ups' := LiftGrows(cfg, tracks, m, live, k, a, kept, ups, LiftStep(cfg, t, k - 1, a));
  }

  /** A track lifts in the last frame it is kept. */
  lemma LiftedIsKept(cfg: Config, tracks: seq<Track>, p: nat)
    requires TracksOk(cfg, tracks) && p < |tracks|
    ensures Lifts(cfg, tracks[p]) ==> Kept(cfg, tracks[p])
  {
  }

  /** A track with an id of its own finds room, is stored while it is kept, and is kept when it lifts. */
  lemma StepIds(cfg: Config, t: Track, p: int, a: Build)
    requires ValidIds(Ids(a.next)) && ValidIds(ContactIds(a.out))
    requires forall d :: d in ContactIds(a.out) ==> d in Ids(a.next)
    requires t.id !in Ids(a.next) && t.id !in ContactIds(a.out) && 1 <= t.id <= MAX_TOUCHES
    requires Lifts(cfg, t) ==> Kept(cfg, t)
    ensures var b := LiftStep(cfg, t, p, a);
      && b.next == (if Kept(cfg, t) then a.next + [Waiting(cfg, t)] else a.next)
      && b.out == (if Lifts(cfg, t) then a.out + [UpContact(Aged(cfg, t), p)] else a.out)
      && ValidIds(Ids(b.next)) && ValidIds(ContactIds(b.out)) && b.seed == a.seed
      && forall d :: d in ContactIds(b.out) ==> d in Ids(b.next)
  {
    var b := LiftStep(cfg, t, p, a);
    RoomForOneMore(Ids(a.next), t.id);
    RoomForOneMore(ContactIds(a.out), t.id);
    if Kept(cfg, t) { assert Ids(b.next) == Ids(a.next) + [t.id]; }
    if Lifts(cfg, t) { assert ContactIds(b.out) == ContactIds(a.out) + [t.id]; }
  }

  // ----- the whole frame before the ghost filter -----

  /** A track matched by some contact is in the live part. */
  lemma MatchedIsLive(cfg: Config, aft: Aft, tracks: seq<Track>, contacts: seq<Contact>, m: seq<int>, always: seq<bool>,
                      live: Build, src: seq<int>)
    requires IsMatching(m, |contacts|, |tracks|) && |always| == |m| && ValidIds(Ids(tracks))
    requires LiveOk(cfg, aft, tracks, contacts, m, always, |m|, live, src)
    ensures forall p :: 0 <= p < |tracks| ==> (p in m <==> tracks[p].id in Ids(live.next))
  {
    forall p | p in m && 0 <= p ensures tracks[p].id in Ids(live.next) {
      var c :| 0 <= c < |m| && m[c] == p;
      MatchedHasEntry(cfg, aft, tracks, contacts, m, always, live, src, c);
    }
    forall p, i | 0 <= p < |tracks| && 0 <= i < |live.next| && live.next[i].id == tracks[p].id ensures p in m {
      EntryIsMatched(cfg, aft, tracks, contacts, m, always, live, src, p, i);
    }
  }

  lemma MatchedHasEntry(cfg: Config, aft: Aft, tracks: seq<Track>, contacts: seq<Contact>, m: seq<int>,
                        always: seq<bool>, live: Build, src: seq<int>, c: nat)
    requires IsMatching(m, |contacts|, |tracks|) && |always| == |m|
    requires LiveOk(cfg, aft, tracks, contacts, m, always, |m|, live, src)
    requires c < |m| && m[c] >= 0
    ensures tracks[m[c]].id in Ids(live.next)
  {
    assert c in src;
    var i :| 0 <= i < |src| && src[i] == c;
    assert Comes(cfg, aft, tracks, contacts[c], m[c], always[c], live.out[i], live.next[i]);
    assert Ids(live.next)[i] == tracks[m[c]].id;
  }

  lemma EntryIsMatched(cfg: Config, aft: Aft, tracks: seq<Track>, contacts: seq<Contact>, m: seq<int>,
                       always: seq<bool>, live: Build, src: seq<int>, p: nat, i: nat)
    requires IsMatching(m, |contacts|, |tracks|) && |always| == |m| && ValidIds(Ids(tracks))
    requires LiveOk(cfg, aft, tracks, contacts, m, always, |m|, live, src)
    requires p < |tracks| && i < |live.next| && live.next[i].id == tracks[p].id
    ensures p in m
  {
    assert Comes(cfg, aft, tracks, contacts[src[i]], m[src[i]], always[src[i]], live.out[i], live.next[i]);
    assert Ids(tracks)[p] == tracks[p].id;
    assert m[src[i]] >= 0;
    assert Ids(tracks)[m[src[i]]] == Ids(tracks)[p];
  }

  /** What a live contact and its new track look like, whichever way they came. */
  lemma LiveEntry(cfg: Config, aft: Aft, tracks: seq<Track>, c: Contact, pre: int, always: bool, o: Contact, t: Track)
    requires -1 <= pre < |tracks| && Comes(cfg, aft, tracks, c, pre, always, o, t)
    ensures o.id == t.id && o.state != StateUp && t.missed == 0 && !t.upEventEmitted
    ensures o.x == t.x == c.x && o.y == t.y == c.y && o.area == c.area && o.signalSum == c.signalSum
    ensures LifeNew in o.lifeFlags <==> pre < 0
  {
  }

  /** The pieces of a frame: live part, lists of kept and lifted tracks. */
  ghost predicate FrameOk(cfg: Config, s: State, frame: Frame, m: seq<int>, always: seq<bool>, live: Build,
                          src: seq<int>, b: Build, kept: seq<int>, ups: seq<int>)
  {
    && IsMatching(m, |Admitted(cfg, frame)|, |s.tracks|) && |always| == |m|
    && LiveOk(cfg, AftContext(cfg, s, frame.pen), s.tracks, Admitted(cfg, frame), m, always, |m|, live, src)
    && LiftOk(cfg, s.tracks, m, live, |s.tracks|, b, kept, ups)
    && (forall p :: 0 <= p < |s.tracks| ==> (p in m <==> s.tracks[p].id in Ids(live.next)))
    && (forall i :: 0 <= i < |live.next| ==>
          live.out[i].state != StateUp && live.next[i].missed == 0 && !live.next[i].upEventEmitted)
  }

  lemma FrameParts(cfg: Config, s: State, frame: Frame, m: seq<int>, always: seq<bool>)
    returns (live: Build, src: seq<int>, kept: seq<int>, ups: seq<int>)
    requires cfg.liftOffHoldFrames >= 0 && StateOk(cfg, s)
    requires IsMatching(m, |Admitted(cfg, frame)|, |s.tracks|) && |always| == |m|
    ensures FrameOk(cfg, s, frame, m, always, live, src, Built(cfg, s, frame, m, always), kept, ups)
  {
    var contacts, aft := Admitted(cfg, frame), AftContext(cfg, s, frame.pen);
    live := Live(cfg, aft, s.tracks, contacts, m, always, s.nextIdSeed, |m|);
    src := LiveKeepsIds(cfg, aft, s.tracks, contacts, m, always, s.nextIdSeed, |m|);
    MatchedIsLive(cfg, aft, s.tracks, contacts, m, always, live, src);
    kept, ups := LiftKeepsIds(cfg, s.tracks, m, live, |s.tracks|);
    forall i | 0 <= i < |live.next|
      ensures live.out[i].state != StateUp && live.next[i].missed == 0 && !live.next[i].upEventEmitted
    {
      LiveEntry(cfg, aft, s.tracks, contacts[src[i]], m[src[i]], always[src[i]], live.out[i], live.next[i]);
    }
  }

  lemma FrameKeepsTracks(cfg: Config, s: State, frame: Frame, m: seq<int>, always: seq<bool>, live: Build,
                         src: seq<int>, b: Build, kept: seq<int>, ups: seq<int>)
    requires cfg.liftOffHoldFrames >= 0 && StateOk(cfg, s)
    requires FrameOk(cfg, s, frame, m, always, live, src, b, kept, ups)
    ensures TracksOk(cfg, b.next) && 1 <= b.seed <= MAX_TOUCHES
  {
    forall i | 0 <= i < |b.next|
      ensures 0 <= b.next[i].missed <= cfg.liftOffHoldFrames + 1
      ensures b.next[i].upEventEmitted <==> b.next[i].missed == cfg.liftOffHoldFrames + 1
    {
      if i < |live.next| {
        assert b.next[i] == live.next[i];
      } else {
        var p := kept[i - |live.next|];
        assert b.next[|live.next| + (i - |live.next|)] == Waiting(cfg, s.tracks[p]);
      }
    }
  }

  // ----- the fate of one id -----

  /** What a list of contacts says about an id. */
  datatype Sighting = Silent | Seen | Lifted

  /** Frames since the track `d` was last seen; None when there is no such track. */
  ghost function Missing(tracks: seq<Track>, d: int): (r: Option<int>)
    ensures r.Some? <==> d in Ids(tracks)
    ensures r.Some? ==> exists i :: 0 <= i < |tracks| && tracks[i].id == d && r.value == tracks[i].missed
  {
    if d in Ids(tracks) then
      var i :| 0 <= i < |tracks| && Ids(tracks)[i] == d;
      Some(tracks[i].missed)
    else None
  }

  ghost function Sighted(out: seq<Contact>, d: int): (r: Sighting)
    ensures r == Silent <==> d !in ContactIds(out)
    ensures r != Silent ==> exists i :: 0 <= i < |out| && out[i].id == d && (r == Lifted <==> out[i].state == StateUp)
  {
    if d in ContactIds(out) then
      var i :| 0 <= i < |out| && ContactIds(out)[i] == d;
      if out[i].state == StateUp then Lifted else Seen
    else Silent
  }

  lemma MissingAt(tracks: seq<Track>, i: int)
    requires ValidIds(Ids(tracks)) && 0 <= i < |tracks|
    ensures Missing(tracks, tracks[i].id) == Some(tracks[i].missed)
  {
    assert Ids(tracks)[i] == tracks[i].id;
  }

  lemma SightedAt(out: seq<Contact>, i: int)
    requires ValidIds(ContactIds(out)) && 0 <= i < |out|
    ensures Sighted(out, out[i].id) == if out[i].state == StateUp then Lifted else Seen
  {
    assert ContactIds(out)[i] == out[i].id;
  }

  /** The only things one frame can do to an id: see it (again, or for the first time), let it wait,
      lift it when the hold runs out, and forget it the frame after. */
  ghost predicate Fate(hold: int, before: Option<int>, e: Sighting, after: Option<int>) {
    match e
    case Seen => after == Some(0)
    case Lifted => before == Some(hold) && after == Some(hold + 1)
    case Silent =>
      match before
      case None => after == None
      case Some(k) => if k < hold then after == Some(k + 1) else k == hold + 1 && after == None
  }

  /** An id seen in this frame. */
  lemma FateLive(cfg: Config, s: State, frame: Frame, m: seq<int>, always: seq<bool>, live: Build, src: seq<int>,
                 b: Build, kept: seq<int>, ups: seq<int>, i: int)
    requires FrameOk(cfg, s, frame, m, always, live, src, b, kept, ups) && 0 <= i < |live.next|
    ensures Missing(b.next, live.next[i].id) == Some(0) && Sighted(b.out, live.next[i].id) == Seen
  {
    assert ContactIds(live.out)[i] == Ids(live.next)[i];
    assert b.out[i] == live.out[i] && b.next[i] == live.next[i];
    MissingAt(b.next, i);
    SightedAt(b.out, i);
  }

  lemma FateOfTrack(cfg: Config, t: Track)
    requires cfg.liftOffHoldFrames >= 0 && 0 <= t.missed <= cfg.liftOffHoldFrames + 1
    requires t.upEventEmitted <==> t.missed == cfg.liftOffHoldFrames + 1
    ensures Fate(cfg.liftOffHoldFrames, Some(t.missed), if Lifts(cfg, t) then Lifted else Silent,
                 if Kept(cfg, t) then Some(t.missed + 1) else None)
  {
  }

  /** An id whose track found no contact. */
  lemma FateOld(cfg: Config, tracks: seq<Track>, m: seq<int>, live: Build, b: Build, kept: seq<int>, ups: seq<int>,
                p: int)
    requires cfg.liftOffHoldFrames >= 0 && TracksOk(cfg, tracks) && LiftOk(cfg, tracks, m, live, |tracks|, b, kept, ups)
    requires ContactIds(live.out) == Ids(live.next)
    requires 0 <= p < |tracks| && p !in m && tracks[p].id !in Ids(live.next)
    ensures var d := tracks[p].id;
      Fate(cfg.liftOffHoldFrames, Missing(tracks, d), Sighted(b.out, d), Missing(b.next, d))
  {
    MissingAt(tracks, p);
    UnmatchedKept(cfg, tracks, m, live, b, kept, ups, p);
    UnmatchedLift(cfg, tracks, m, live, b, kept, ups, p);
    FateOfTrack(cfg, tracks[p]);
  }

  /** An id nobody uses. */
  lemma FateNone(cfg: Config, tracks: seq<Track>, m: seq<int>, live: Build, b: Build, kept: seq<int>, ups: seq<int>,
                 d: int)
    requires LiftOk(cfg, tracks, m, live, |tracks|, b, kept, ups) && d !in Ids(live.next) && d !in Ids(tracks)
    ensures Fate(cfg.liftOffHoldFrames, Missing(tracks, d), Sighted(b.out, d), Missing(b.next, d))
  {
    forall p | p in kept ensures tracks[p].id != d {
      assert Ids(tracks)[p] == tracks[p].id;
    }
    UnknownFate(cfg, tracks, m, live, b, kept, ups, d);
  }

  lemma FateOfId(cfg: Config, s: State, frame: Frame, m: seq<int>, always: seq<bool>, live: Build, src: seq<int>,
                 b: Build, kept: seq<int>, ups: seq<int>, d: int)
    requires cfg.liftOffHoldFrames >= 0 && StateOk(cfg, s)
    requires FrameOk(cfg, s, frame, m, always, live, src, b, kept, ups)
    ensures Fate(cfg.liftOffHoldFrames, Missing(s.tracks, d), Sighted(b.out, d), Missing(b.next, d))
  {
    if d in Ids(live.next) {
      var i :| 0 <= i < |live.next| && Ids(live.next)[i] == d;
      FateLive(cfg, s, frame, m, always, live, src, b, kept, ups, i);
    } else if d in Ids(s.tracks) {
      var p :| 0 <= p < |s.tracks| && Ids(s.tracks)[p] == d;
      FateOld(cfg, s.tracks, m, live, b, kept, ups, p);
    } else {
      FateNone(cfg, s.tracks, m, live, b, kept, ups, d);
    }
  }

  lemma UnknownFate(cfg: Config, tracks: seq<Track>, m: seq<int>, live: Build, b: Build, kept: seq<int>, ups: seq<int>,
                    d: int)
    requires LiftOk(cfg, tracks, m, live, |tracks|, b, kept, ups)
    requires d !in Ids(live.next) && forall p :: p in kept ==> tracks[p].id != d
    ensures d !in Ids(b.next) && d !in ContactIds(b.out)
  {
    forall i | 0 <= i < |b.next| ensures b.next[i].id != d {
      if i < |live.next| {
        assert Ids(live.next)[i] == b.next[i].id;
      } else {
        var j := i - |live.next|;
        assert kept[j] in kept;
        assert b.next[|live.next| + j] == Waiting(cfg, tracks[kept[j]]);
      }
    }
  }

  lemma UnmatchedKept(cfg: Config, tracks: seq<Track>, m: seq<int>, live: Build, b: Build, kept: seq<int>,
                      ups: seq<int>, p: int)
    requires ValidIds(Ids(tracks))
    requires LiftOk(cfg, tracks, m, live, |tracks|, b, kept, ups)
    requires 0 <= p < |tracks| && p !in m && tracks[p].id !in Ids(live.next)
    ensures Missing(b.next, tracks[p].id) == if Kept(cfg, tracks[p]) then Some(tracks[p].missed + 1) else None
  {
    var t := tracks[p];
    if Kept(cfg, t) {
      var i :| 0 <= i < |kept| && kept[i] == p;
      assert b.next[|live.next| + i] == Waiting(cfg, t);
      MissingAt(b.next, |live.next| + i);
    } else {
      forall k | k in kept ensures tracks[k].id != t.id {
        assert Ids(tracks)[k] == tracks[k].id && Ids(tracks)[p] == t.id;
      }
      UnknownFate(cfg, tracks, m, live, b, kept, ups, t.id);
    }
  }

  lemma UnmatchedLift(cfg: Config, tracks: seq<Track>, m: seq<int>, live: Build, b: Build, kept: seq<int>,
                      ups: seq<int>, p: int)
    requires ValidIds(Ids(tracks))
    requires LiftOk(cfg, tracks, m, live, |tracks|, b, kept, ups)
    requires ContactIds(live.out) == Ids(live.next)
    requires 0 <= p < |tracks| && p !in m && tracks[p].id !in Ids(live.next)
    ensures Sighted(b.out, tracks[p].id) == if Lifts(cfg, tracks[p]) then Lifted else Silent
  {
    var t := tracks[p];
    if Lifts(cfg, t) {
      var i :| 0 <= i < |ups| && ups[i] == p;
      assert b.out[|live.out| + i] == UpContact(Aged(cfg, t), p);
      SightedAt(b.out, |live.out| + i);
    } else {
      forall i | 0 <= i < |b.out| ensures b.out[i].id != t.id {
        if i < |live.out| {
          assert ContactIds(live.out)[i] == b.out[i].id;
        } else {
          var k := ups[i - |live.out|];
          assert b.out[|live.out| + (i - |live.out|)] == UpContact(Aged(cfg, tracks[k]), k);
          assert Ids(tracks)[k] == tracks[k].id && Ids(tracks)[p] == t.id;
        }
      }
    }
  }
}
