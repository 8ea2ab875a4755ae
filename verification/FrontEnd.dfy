/** From the heat map to the tracker: peaks, zones and contacts, edge compensation, one tracker frame. */
module FrontEnd {
  import opened EngineTypes
  import opened ZoneGrid
  import opened ZoneInfo
  import opened ZoneFlood
  import opened ZoneRun
  import opened ZoneContacts
  import opened ZonePeaks
  import opened Zones
  import opened EdgeComp
  import opened Pairing
  import Sorting
  import Peaks
  import Detector
  import Expander
  import Extractor
  import Tracker
  import T = TrackerModel
  import F = TrackerFrame

  // ----- where the contacts of a frame lie -----

  /** Between the centres of the outermost cells, and whole in 1/256. */
  predicate OnCentres(c: Contact) {
    0.5 <= c.x <= 59.5 && InQ8(c.x) && 0.5 <= c.y <= 39.5 && InQ8(c.y)
  }

  lemma LocalOnCentres(hm: seq<int>, pk: Peak, area: int, sig: int)
    requires OnCells(hm) && OnGrid(pk.r, pk.c) && hm[PeakCell(pk)] > 0
    ensures OnCentres(LocalContact(hm, pk, area, sig))
  {
    LocalCentroidNearPeak(hm, pk, area, sig);
    var ns := Window(pk.r, pk.c, 0);
    var t := if WindowSum(hm, ns, |ns|, ByOne) == 0 then 1 else WindowSum(hm, ns, |ns|, ByOne);
    CentroidsAreWhole(WindowSum(hm, ns, |ns|, ByCol), t);
    CentroidsAreWhole(WindowSum(hm, ns, |ns|, ByRow), t);
  }

  /** Within sixty cells of the origin, and whole in 1/256. */
  predicate InReach(c: Contact) {
    -60.0 <= c.x <= 60.0 && InQ8(c.x) && -60.0 <= c.y <= 60.0 && InQ8(c.y)
  }

  /** The contact of a zone of its own: on the grid while the weighted sums fit 32 bits, in reach in any case. */
  lemma SingleInReach(hm: seq<int>, peaks: seq<Peak>, h: History, p: nat, u: Unit, e: EdgeInfo, ps: seq<Pixel>,
                      id: int)
    requires OnCells(hm) && p < |peaks| && p < |h.cores| && p < |h.marks| && UnitOk(hm, peaks, h, p, u, e, ps)
    requires u.area != 0
    ensures u.weightTotal != 0 && InReach(SingleContact(u, id)) && (SumsHold(ps) ==> OnCentres(SingleContact(u, id)))
  {
    FloodedUnit(hm, peaks, h, p, u, e, ps);
    SumsInBox(hm, u, e, ps, h.cores[p], h.marks[p]);
    CentroidsAreWhole(u.weightedColSum, u.weightTotal);
    CentroidsAreWhole(u.weightedRowSum, u.weightTotal);
    if SumsHold(ps) {
      CentroidInBox(hm, u, e, ps, h.cores[p], h.marks[p], id);
    } else {
      if u.weightTotal <= FITTING { FittingSumsHold(ps); }
      CentroidReach(CoreSum(ps, ByCol), u.weightTotal);
      CentroidReach(CoreSum(ps, ByRow), u.weightTotal);
    }
  }

  /** The zone of peak `q` is shared, or its weighted sums fit 32 bits. */
  ghost predicate Fits(t: Expander.Trace, q: nat)
    requires Rooted(t.labels) && |t.scanned| == |t.pixels| == |t.labels| && q < |t.labels|
  {
    var p := t.labels[q] - 1;
    |t.scanned[p].peakIndices| >= 2 || SumsHold(t.pixels[p])
  }

  ghost predicate AllFit(t: Expander.Trace) {
    && Rooted(t.labels) && |t.scanned| == |t.pixels| == |t.labels|
    && forall q: nat {:trigger Fits(t, q)} :: q < |t.labels| ==> Fits(t, q)
  }

  /** The zone of a peak is that of a root, and the lookup adds nothing to its unit but the list of peaks. */
  lemma Owner(labels: seq<int>, flooded: seq<Unit>, scanned: seq<Unit>, q: nat) returns (p: nat)
    requires Unscanned(labels, flooded) && ScannedUnits(labels, flooded, scanned, |labels|) && q < |labels|
    ensures p < |labels| && p == labels[q] - 1 && flooded[p].area != 0
    ensures scanned[p] == flooded[p].(peakIndices := scanned[p].peakIndices)
  {
    OwnerIsRoot(labels, q);
    p := labels[q] - 1;
    assert scanned[p] == ScannedUnit(labels, flooded[p], p, |labels|);
  }

  /** The unit of a peak's zone: sound as flooded, and the same after the lookup but for the list of peaks. */
  lemma OwnerUnit(hm: seq<int>, peaks: seq<Peak>, h: History, flooded: seq<Unit>, edges: seq<EdgeInfo>,
                  pss: seq<seq<Pixel>>, labels: seq<int>, scanned: seq<Unit>, q: nat)
    returns (p: nat)
    requires PeaksOk(hm, peaks) && UnitsOk(hm, peaks, h, |peaks|, flooded, edges, pss) && q < |peaks|
    requires Unscanned(labels, flooded) && ScannedUnits(labels, flooded, scanned, |labels|) && |labels| == |peaks|
    ensures p < |peaks| && p == labels[q] - 1 && flooded[p].area != 0
    ensures UnitOk(hm, peaks, h, p, flooded[p], edges[p], pss[p])
    ensures scanned[p] == flooded[p].(peakIndices := scanned[p].peakIndices)
  {
    p := Owner(labels, flooded, scanned, q);
    assert UnitOk(hm, peaks, h, p, flooded[p], edges[p], pss[p]);
  }

  /** A unit with pixels: its contact is in reach, and on the grid while the weighted sums fit. */
  ghost predicate UnitReaches(u: Unit, holds: bool) {
    u.area != 0 ==>
      u.weightTotal != 0 && InReach(SingleContact(u, 0)) && (holds ==> OnCentres(SingleContact(u, 0)))
  }

  ghost predicate UnitsReach(units: seq<Unit>, holds: seq<bool>) {
    |units| == |holds| && forall p: nat {:trigger UnitReaches(units[p], holds[p])} :: p < |units| ==>
      UnitReaches(units[p], holds[p])
  }

  ghost function Holding(pss: seq<seq<Pixel>>): (holds: seq<bool>) {
    seq(|pss|, p requires 0 <= p < |pss| => SumsHold(pss[p]))
  }

  lemma AllUnitsReach(hm: seq<int>, peaks: seq<Peak>, h: History, units: seq<Unit>, edges: seq<EdgeInfo>,
                      pss: seq<seq<Pixel>>)
    requires OnCells(hm) && UnitsOk(hm, peaks, h, |peaks|, units, edges, pss)
    ensures UnitsReach(units, Holding(pss))
  {
    forall p: nat | p < |units| ensures UnitReaches(units[p], SumsHold(pss[p])) {
      assert UnitOk(hm, peaks, h, p, units[p], edges[p], pss[p]);
      if units[p].area != 0 { SingleInReach(hm, peaks, h, p, units[p], edges[p], pss[p], 0); }
    }
  }

  /** In reach, and on the grid when `fit` says so. */
  ghost predicate Placed(c: Contact, fit: bool) { InReach(c) && (fit ==> OnCentres(c)) }

  /** A peak with the unit of its zone before and after the lookup. */
  ghost predicate LookedUp(hm: seq<int>, pk: Peak, u: Unit, holds: bool, v: Unit) {
    && OnCells(hm) && UnitReaches(u, holds) && u.area != 0 && v == u.(peakIndices := v.peakIndices)
    && OnGrid(pk.r, pk.c) && hm[PeakCell(pk)] > 0
  }

  lemma LookedUpAt(hm: seq<int>, peaks: seq<Peak>, labels: seq<int>, flooded: seq<Unit>, scanned: seq<Unit>,
                holds: seq<bool>, q: nat)
    returns (p: nat)
    requires PeaksOk(hm, peaks) && q < |labels| == |peaks| && UnitsReach(flooded, holds)
    requires Unscanned(labels, flooded) && ScannedUnits(labels, flooded, scanned, |labels|)
    ensures p < |scanned| == |flooded| == |holds| && p == labels[q] - 1
    ensures LookedUp(hm, peaks[q], flooded[p], holds[p], scanned[p])
  {
    p := Owner(labels, flooded, scanned, q);
    assert UnitReaches(flooded[p], holds[p]);
  }

  /** The contact of a peak from the unit of its zone. */
  lemma ContactInReach(hm: seq<int>, pk: Peak, u: Unit, holds: bool, v: Unit)
    requires LookedUp(hm, pk, u, holds, v)
    ensures Placed(ContactOf(hm, pk, v), |v.peakIndices| >= 2 || holds)
  {
    var n := |v.peakIndices|;
    if n >= 2 { LocalOnCentres(hm, pk, TruncDiv(v.area, n), TruncDiv(v.signalSum, n)); }
  }

  /** The contact a peak shall have. */
  lemma WantedInReach(hm: seq<int>, peaks: seq<Peak>, labels: seq<int>, u: Unit, holds: bool, scanned: seq<Unit>,
                      q: nat, p: nat)
    requires OnCells(hm) && Rooted(labels) && q < |labels| == |scanned| == |peaks|
    requires p < |scanned| && p == labels[q] - 1
    requires LookedUp(hm, peaks[q], u, holds, scanned[p])
    ensures Placed(Expected(hm, peaks, labels, scanned, |peaks|)[q], |scanned[p].peakIndices| >= 2 || holds)
  {
    ContactInReach(hm, peaks[q], u, holds, scanned[p]);
    ExpectedAt(hm, peaks, labels, scanned, |peaks|, q);
  }

  /** The cut moves no contact. */
  lemma CutMovesNone(all: seq<Contact>, maxTouches: int, out: seq<Contact>, k: nat) returns (j: nat)
    requires IsCut(all, maxTouches, out) && k < |out|
    ensures j < |all| && out[k].x == all[j].x && out[k].y == all[j].y
  {
    j := k;
    if maxTouches > 0 && |all| > maxTouches {
      var s: seq<Contact> :| IsSorted(all, s) && |s| >= maxTouches && out == Renumbered(s[..maxTouches]);
      assert s[k] in multiset(s);
      assert s[k] in multiset(all);
      j :| 0 <= j < |all| && all[j] == s[k];
    }
  }

  /** The contacts are those of a frame: each peak's, in the order of the zones, after the cut. */
  ghost predicate ContactsOf(numer: int, sigThold: int, maxTouches: int, hm: seq<int>, peaks: seq<Peak>,
                             t: Expander.Trace, edges: seq<EdgeInfo>, contacts: seq<Contact>)
  {
    && FloodRun(hm, peaks, Tholds(numer, sigThold, peaks), t.h, |peaks|)
    && UnitsOk(hm, peaks, t.h, |peaks|, t.flooded, edges, t.pixels)
    && t.labels == LabelsOf(hm, peaks, t.h.maps[|peaks|]) && Rooted(t.labels) && |t.scanned| == |peaks|
    && ScannedUnits(t.labels, t.flooded, t.scanned, |peaks|)
    && ContactsFollow(Expected(hm, peaks, t.labels, t.scanned, |peaks|), Roster(t.labels, |peaks|), t.all)
    && IsCut(t.all, maxTouches, contacts)
  }

  /** The zone of every peak is shared, or its weighted sums fit. */
  ghost predicate AllHold(labels: seq<int>, scanned: seq<Unit>, holds: seq<bool>)
    requires Rooted(labels) && |labels| == |scanned| == |holds|
  {
    forall q :: 0 <= q < |labels| ==> |scanned[labels[q] - 1].peakIndices| >= 2 || holds[labels[q] - 1]
  }

  lemma AllPlaced(hm: seq<int>, peaks: seq<Peak>, labels: seq<int>, flooded: seq<Unit>, scanned: seq<Unit>,
                  holds: seq<bool>, want: seq<Contact>, fit: bool)
    requires PeaksOk(hm, peaks) && |peaks| == |labels| && UnitsReach(flooded, holds)
    requires Unscanned(labels, flooded) && ScannedUnits(labels, flooded, scanned, |labels|)
    requires |holds| == |labels| == |scanned| && (fit ==> AllHold(labels, scanned, holds))
    requires want == Expected(hm, peaks, labels, scanned, |peaks|)
    ensures forall q :: 0 <= q < |want| ==> Placed(want[q], fit)
  {
    forall q | 0 <= q < |want| ensures Placed(want[q], fit) {
      var p := LookedUpAt(hm, peaks, labels, flooded, scanned, holds, q);
      WantedInReach(hm, peaks, labels, flooded[p], holds[p], scanned, q, p);
    }
  }

  lemma FollowPlaced(want: seq<Contact>, list: seq<int>, contacts: seq<Contact>, fit: bool)
    requires ContactsFollow(want, list, contacts) && forall q :: 0 <= q < |want| ==> Placed(want[q], fit)
    ensures forall k :: 0 <= k < |contacts| ==> Placed(contacts[k], fit)
  {
    forall k | 0 <= k < |contacts| ensures Placed(contacts[k], fit) {
      assert Placed(want[list[k]], fit);
    }
  }

  lemma FittingHold(t: Expander.Trace)
    requires AllFit(t)
    ensures AllHold(t.labels, t.scanned, Holding(t.pixels))
  {
    forall q | 0 <= q < |t.labels|
      ensures |t.scanned[t.labels[q] - 1].peakIndices| >= 2 || Holding(t.pixels)[t.labels[q] - 1]
    {
      assert Fits(t, q);
    }
  }

  lemma CutPlaced(all: seq<Contact>, maxTouches: int, out: seq<Contact>, fit: bool)
    requires IsCut(all, maxTouches, out) && forall k :: 0 <= k < |all| ==> Placed(all[k], fit)
    ensures forall k :: 0 <= k < |out| ==> Placed(out[k], fit)
  {
    forall k | 0 <= k < |out| ensures Placed(out[k], fit) {
      var j := CutMovesNone(all, maxTouches, out, k);
      assert Placed(all[j], fit);
    }
  }

  /** Every contact of a frame is in reach; while the weighted sums of all zones of a single peak fit 32 bits it lies
      between the centres of the outermost cells. */
  lemma ContactsOnCentres(numer: int, sigThold: int, maxTouches: int, hm: seq<int>, peaks: seq<Peak>,
                          t: Expander.Trace, edges: seq<EdgeInfo>, contacts: seq<Contact>)
    requires ContactsOf(numer, sigThold, maxTouches, hm, peaks, t, edges, contacts)
    ensures forall k :: 0 <= k < |contacts| ==> InReach(contacts[k])
    ensures AllFit(t) ==> forall k :: 0 <= k < |contacts| ==> OnCentres(contacts[k])
  {
    FloodedUnitsUnscanned(hm, peaks, Tholds(numer, sigThold, peaks), t.h, t.flooded, edges, t.pixels);
    AllUnitsReach(hm, peaks, t.h, t.flooded, edges, t.pixels);
    var want, fit := Expected(hm, peaks, t.labels, t.scanned, |peaks|), AllFit(t);
    if fit { FittingHold(t); }
    AllPlaced(hm, peaks, t.labels, t.flooded, t.scanned, Holding(t.pixels), want, fit);
    FollowPlaced(want, Roster(t.labels, |peaks|), t.all, fit);
    CutPlaced(t.all, maxTouches, contacts, fit);
  }

  /** Positive signal of a heat map below cell `n`. */
  ghost function PositiveSignal(hm: seq<int>, n: nat): int
    requires OnCells(hm) && n <= CELLS
  {
    if n == 0 then 0 else PositiveSignal(hm, n - 1) + Max(0, hm[n - 1])
  }

  lemma {:induction false} CoreSignalBound(hm: seq<int>, core: set<int>, n: nat)
    requires OnCells(hm) && n <= CELLS
    ensures SumOver(hm, core, ByOne, n) <= PositiveSignal(hm, n)
  {
    if n > 0 { CoreSignalBound(hm, core, n - 1); }
  }

  /** A heat map with a positive signal of at most 284359 in all has only zones whose sums fit. */
  lemma QuietMapFits(numer: int, sigThold: int, maxTouches: int, hm: seq<int>, peaks: seq<Peak>, t: Expander.Trace,
                     edges: seq<EdgeInfo>, contacts: seq<Contact>)
    requires ContactsOf(numer, sigThold, maxTouches, hm, peaks, t, edges, contacts)
    requires PositiveSignal(hm, CELLS) <= FITTING
    ensures AllFit(t)
  {
    FloodedUnitsUnscanned(hm, peaks, Tholds(numer, sigThold, peaks), t.h, t.flooded, edges, t.pixels);
    forall q: nat | q < |t.labels| ensures Fits(t, q) {
      var p := OwnerUnit(hm, peaks, t.h, t.flooded, edges, t.pixels, t.labels, t.scanned, q);
      QuietUnitFits(hm, peaks, t.h, p, t.flooded[p], edges[p], t.pixels[p]);
    }
  }

  lemma QuietUnitFits(hm: seq<int>, peaks: seq<Peak>, h: History, p: nat, u: Unit, e: EdgeInfo, ps: seq<Pixel>)
    requires OnCells(hm) && p < |peaks| && p < |h.cores| && p < |h.marks| && UnitOk(hm, peaks, h, p, u, e, ps)
    requires u.area != 0 && PositiveSignal(hm, CELLS) <= FITTING
    ensures SumsHold(ps)
  {
    FloodedUnit(hm, peaks, h, p, u, e, ps);
    SumsInBox(hm, u, e, ps, h.cores[p], h.marks[p]);
    SumsOverCore(hm, ps, h.cores[p], h.marks[p], ByOne);
    CoreSignalBound(hm, h.cores[p], CELLS);
    FittingSumsHold(ps);
  }

  // ----- which border sums a contact meets -----

  /** Before any cut contact `k` stands for peak `Roster(labels, n)[k]` and meets the border sums at index `k`. These
      are its own zone's, for all contacts, exactly when no peak was absorbed. */
  lemma OwnBorderSumsIff(labels: seq<int>)
    requires Rooted(labels)
    ensures |Roster(labels, |labels|)| == |labels|
    ensures (forall k :: 0 <= k < |labels| ==> 0 <= Roster(labels, |labels|)[k] < |labels|)
    ensures (forall k :: 0 <= k < |labels| ==> labels[Roster(labels, |labels|)[k]] == k + 1)
       <==> (forall q :: 0 <= q < |labels| ==> labels[q] == q + 1)
  {
    var n := |labels|;
    var roster := Roster(labels, n);
    RosterIsPartition(labels);
    forall k | 0 <= k < n ensures 0 <= roster[k] < n { assert roster[k] in roster; }
    if forall k :: 0 <= k < n ==> labels[roster[k]] == k + 1 {
      forall q | 0 <= q < n ensures labels[q] == q + 1 { OwnerIsRoot(labels, roster[q]); }
    }
    if forall q :: 0 <= q < n ==> labels[q] == q + 1 {
      RosterOfRoots(labels, n);
    }
  }

  lemma {:induction false} OwnedAlone(labels: seq<int>, p: nat, k: nat)
    requires k <= |labels| && forall q :: 0 <= q < |labels| ==> labels[q] == q + 1
    ensures Owned(labels, p, k) == if p < k then [p] else []
  {
    if k > 0 { OwnedAlone(labels, p, k - 1); }
  }

  lemma NextRoster(labels: seq<int>, p: nat)
    requires 1 <= p <= |labels| && forall q :: 0 <= q < |labels| ==> labels[q] == q + 1
    ensures Roster(labels, p) == Roster(labels, p - 1) + [p - 1]
  {
    OwnedAlone(labels, p - 1, |labels|);
  }

  lemma {:induction false} RosterOfRoots(labels: seq<int>, p: nat)
    requires p <= |labels| && forall q :: 0 <= q < |labels| ==> labels[q] == q + 1
    ensures |Roster(labels, p)| == p && forall k :: 0 <= k < p ==> Roster(labels, p)[k] == k
  {
    if p > 0 {
      RosterOfRoots(labels, p - 1);
      NextRoster(labels, p);
    }
  }

  /** At the index of an absorbed peak there are no border sums: the contact there is left alone, whatever border its
      zone reaches. */
  lemma AbsorbedHasNone(hm: seq<int>, peaks: seq<Peak>, tholds: seq<int>, h: History, flooded: seq<Unit>,
                        edges: seq<EdgeInfo>, pss: seq<seq<Pixel>>, q: nat)
    requires FloodRun(hm, peaks, tholds, h, |peaks|) && UnitsOk(hm, peaks, h, |peaks|, flooded, edges, pss)
    requires q < |peaks| && LabelsOf(hm, peaks, h.maps[|peaks|])[q] != q + 1
    ensures edges[q] == NO_EDGE
  {
    PeaksHaveRoots(hm, peaks, tholds, h);
    assert UnitOk(hm, peaks, h, q, flooded[q], edges[q], pss[q]);
  }

  // ----- the same after a cut -----

  ghost function Strengths(all: seq<Contact>): (s: seq<int>)
    ensures |s| == |all| && forall i :: 0 <= i < |s| ==> s[i] == all[i].signalSum
  {
    seq(|all|, i requires 0 <= i < |all| => all[i].signalSum)
  }

  /** The index of the zone each contact stands for, before the cut. */
  ghost function ZonesOf(labels: seq<int>, roster: seq<int>): (z: seq<int>)
    requires forall k :: 0 <= k < |roster| ==> 0 <= roster[k] < |labels|
    ensures |z| == |roster| && forall k :: 0 <= k < |z| ==> z[k] == labels[roster[k]] - 1
  {
    seq(|roster|, k requires 0 <= k < |roster| => labels[roster[k]] - 1)
  }

  /** The cut that the sort order `order` leads to. */
  ghost predicate CutBy(all: seq<Contact>, order: seq<int>, m: nat, out: seq<Contact>) {
    && SortsDown(Strengths(all), order) && |out| == m <= |all|
    && forall k :: 0 <= k < m ==> out[k] == all[order[k]].(id := k)
  }

  lemma CutHasOrder(all: seq<Contact>, m: nat, out: seq<Contact>) returns (order: seq<int>)
    requires 0 < m < |all| && IsCut(all, m, out)
    ensures CutBy(all, order, m, out)
  {
    var s: seq<Contact> :| IsSorted(all, s) && |s| >= m && out == Renumbered(s[..m]);
    order := SameEntriesSelect(all, s);
    forall i, j | 0 <= i < j < |order| ensures all[order[i]].signalSum >= all[order[j]].signalSum {
      assert Weakness(s[i]) <= Weakness(s[j]);
    }
  }

  lemma OrderMakesCut(all: seq<Contact>, order: seq<int>, m: nat, out: seq<Contact>)
    requires 0 < m < |all| && CutBy(all, order, m, out)
    ensures IsCut(all, m, out)
  {
    var s := seq(|all|, k requires 0 <= k < |all| => all[order[k]]);
    SelectedSame(all, order, s);
    assert Sorting.Ascending(s, Weakness);
    assert IsSorted(all, s);
    assert out == Renumbered(s[..m]);
  }

  /** The contacts of one zone are equally strong. */
  lemma ZonesAreEven(hm: seq<int>, peaks: seq<Peak>, labels: seq<int>, scanned: seq<Unit>, all: seq<Contact>)
    requires PeaksOk(hm, peaks) && Ready(labels, scanned) && |labels| == |peaks|
    requires ContactsFollow(Expected(hm, peaks, labels, scanned, |peaks|), Roster(labels, |peaks|), all)
    ensures EvenZones(ZonesOf(labels, Roster(labels, |peaks|)), Strengths(all))
  {
    var roster := Roster(labels, |peaks|);
    var zones, strength := ZonesOf(labels, roster), Strengths(all);
    forall i | 0 <= i < |zones| ensures zones[i] >= 0 { OwnerIsRoot(labels, roster[i]); }
    forall i, j | 0 <= i < |zones| && 0 <= j < |zones| && zones[i] == zones[j] ensures strength[i] == strength[j] {
      if roster[i] != roster[j] {
        EvenlyShared(hm, peaks, labels, scanned, roster[i], roster[j]);
      }
    }
  }

  lemma EvenlyShared(hm: seq<int>, peaks: seq<Peak>, labels: seq<int>, scanned: seq<Unit>, a: nat, b: nat)
    requires PeaksOk(hm, peaks) && Ready(labels, scanned) && |labels| == |peaks|
    requires a < |peaks| && b < |peaks| && a != b && labels[a] == labels[b]
    ensures var want := Expected(hm, peaks, labels, scanned, |peaks|); want[a].signalSum == want[b].signalSum
  {
    var p := labels[a] - 1;
    OwnerIsRoot(labels, a);
    TwoListed(labels, a, b);
    assert scanned[p].peakIndices == Owned(labels, p, |labels|);
    ExpectedAt(hm, peaks, labels, scanned, |peaks|, a);
    ExpectedAt(hm, peaks, labels, scanned, |peaks|, b);
    SharedSignal(hm, peaks[a], scanned[p]);
    SharedSignal(hm, peaks[b], scanned[p]);
  }

  lemma TwoListed(labels: seq<int>, a: nat, b: nat)
    requires a < |labels| && b < |labels| && a != b && labels[a] == labels[b]
    ensures |Owned(labels, labels[a] - 1, |labels|)| >= 2
  {
    var own := Owned(labels, labels[a] - 1, |labels|);
    OwnedMeans(labels, labels[a] - 1, |labels|);
    assert a in own && b in own;
  }

  lemma SharedSignal(hm: seq<int>, pk: Peak, u: Unit)
    requires OnCells(hm) && |u.peakIndices| >= 2
    ensures ContactOf(hm, pk, u).signalSum == TruncDiv(u.signalSum, |u.peakIndices|)
  {
  }

  /** After a cut to `m` contacts every contact kept meets the border sums of its own zone, however the sort orders
      equals, exactly when before the cut, zone by zone, the first `m` zones have a contact each that is stronger than
      those of all later zones, and the only one of its zone, but for the last. */
  lemma OwnAfterCutIff(numer: int, sigThold: int, m: nat, hm: seq<int>, peaks: seq<Peak>, t: Expander.Trace,
                       edges: seq<EdgeInfo>, contacts: seq<Contact>)
    requires ContactsOf(numer, sigThold, m, hm, peaks, t, edges, contacts) && 0 < m < |peaks|
    ensures |t.all| == |Roster(t.labels, |peaks|)| == |peaks|
    ensures forall out :: IsCut(t.all, m, out) <==> exists order :: CutBy(t.all, order, m, out)
    ensures var zones := ZonesOf(t.labels, Roster(t.labels, |peaks|));
      AlwaysRight(zones, Strengths(t.all), m) <==> Ranked(zones, Strengths(t.all), m)
  {
    RosterIsPartition(t.labels);
    FloodedUnitsUnscanned(hm, peaks, Tholds(numer, sigThold, peaks), t.h, t.flooded, edges, t.pixels);
    ScannedAreReady(t.labels, t.flooded, t.scanned);
    ZonesAreEven(hm, peaks, t.labels, t.scanned, t.all);
    AlwaysRightIff(ZonesOf(t.labels, Roster(t.labels, |peaks|)), Strengths(t.all), m);
    forall out ensures IsCut(t.all, m, out) <==> exists order :: CutBy(t.all, order, m, out) {
      if IsCut(t.all, m, out) { var order := CutHasOrder(t.all, m, out); }
      if order :| CutBy(t.all, order, m, out) { OrderMakesCut(t.all, order, m, out); }
    }
  }

  // ----- a whole frame -----

  const PANEL: EdgeBounds := EdgeBounds(0.0, 60.0, 0.0, 40.0)

  lemma PanelIsValid()
    ensures PANEL.Valid()
  {
    assert (0.0 * 256.0).Floor == 0 && (60.0 * 256.0).Floor == 15360 && (40.0 * 256.0).Floor == 10240;
  }

  /** Contact `k` is compensated with the border sums at index `k`, if the stage is on. */
  ghost predicate EdgeDone(on: bool, prof: seq<Segment>, range: real, contacts: seq<Contact>, edges: seq<EdgeInfo>,
                           out: seq<Contact>)
    requires ProfileOk(prof)
  {
    && |out| == |contacts|
    && forall k :: 0 <= k < |out| ==>
         if on && k < |edges| then CompensatedBy(prof, range, PANEL, contacts[k], edges[k], out[k])
         else out[k] == contacts[k]
  }

  /** A contact and what edge compensation makes of it: still on the panel, and nowhere moved inward. */
  ghost predicate PushedOut(c: Contact, e: EdgeInfo, out: Contact) {
    && OnPanel(PANEL, out) && out.id == c.id && out.state == c.state
    && (e.touchesBorder ==> Outward(e, true, c.x, out.x) && Outward(e, false, c.y, out.y))
    && (!e.touchesBorder ==> out == c)
  }

  lemma DimInReach(prof: seq<Segment>, range: real, coord: real, far: real, e: EdgeInfo, isDimX: bool, out: real)
    requires ProfileOk(prof) && -60.0 <= coord <= 60.0 && InQ8(coord) && 0.0 <= far <= 60.0 && InQ8(far)
    requires InQ8(0.0) && IsDim(prof, range, coord, 0.0, far, e, isDimX, out)
    ensures -60.0 <= out <= 60.0
  {
    var farEdge, raw := FarEdge(e, isDimX), RawDist(coord, 0.0, far, FarEdge(e, isDimX));
    if NearEdge(e, isDimX) || farEdge {
      var compOff :|
        && IsCompOffset(prof, EdgeWidth(Outer(e, isDimX), Inner(e, isDimX)), raw, compOff)
        && out == Compensated(coord, 0.0, far, farEdge, compOff, Trunc(range * 256.0));
      FinalOffsetBetween(raw, compOff, Trunc(range * 256.0));
    }
  }

  /** Compensation keeps a contact in reach, on the panel or not. */
  lemma AllInReach(on: bool, prof: seq<Segment>, range: real, contacts: seq<Contact>, edges: seq<EdgeInfo>,
                   out: seq<Contact>)
    requires ProfileOk(prof) && EdgeDone(on, prof, range, contacts, edges, out)
    requires forall k :: 0 <= k < |contacts| ==> InReach(contacts[k])
    ensures forall c :: c in out ==> Tracker.ContactInRange(c)
  {
    PanelIsValid();
    forall k | 0 <= k < |out| ensures Tracker.ContactInRange(out[k]) {
      var c := contacts[k];
      if on && k < |edges| && edges[k].touchesBorder {
        DimInReach(prof, range, c.x, 60.0, edges[k], true, out[k].x);
        DimInReach(prof, range, c.y, 40.0, edges[k], false, out[k].y);
      }
    }
  }

  lemma AllPushedOut(on: bool, prof: seq<Segment>, range: real, contacts: seq<Contact>, edges: seq<EdgeInfo>,
                     out: seq<Contact>)
    requires ProfileOk(prof) && EdgeDone(on, prof, range, contacts, edges, out) && |contacts| <= |edges|
    requires forall k :: 0 <= k < |contacts| ==> OnCentres(contacts[k])
    ensures forall k :: 0 <= k < |out| ==> OnPanel(PANEL, out[k])
    ensures on ==> forall k :: 0 <= k < |out| ==> PushedOut(contacts[k], edges[k], out[k])
  {
    PanelIsValid();
    forall k | 0 <= k < |out| && on ensures PushedOut(contacts[k], edges[k], out[k]) {
      ContactStaysOnPanel(prof, range, PANEL, contacts[k], edges[k], out[k]);
    }
  }

  /** Peaks, zones and contacts. */
  method Extract(det: Detector.PeakDetector, zone: Expander.ZoneExpander, hm: seq<int>)
    returns (contacts: seq<Contact>, ghost t: Expander.Trace, ghost kept: seq<Peak>, ghost dropped: seq<Peak>)
    requires OnCells(hm) && zone.Valid() && TholdFits(zone.numer, det.cfg.threshold)
    requires det.cfg.threshold > 0 && (det.cfg.edgeThresholdEnabled ==> det.cfg.edgeThreshold > 0)
    modifies det, zone, zone.touchZones
    ensures zone.Valid() && zone.touchZones == old(zone.touchZones)
    ensures Extractor.Detected(det.cfg, hm, kept, dropped, det.peaks)
    ensures ContactsOf(zone.numer, det.cfg.threshold, zone.maxTouches, hm, det.peaks, t, zone.edgeInfos, contacts)
    ensures |contacts| == if zone.maxTouches > 0 then Min(|det.peaks|, zone.maxTouches) else |det.peaks|
    ensures |contacts| <= |zone.edgeInfos| == |det.peaks|
  {
    contacts, t, kept, dropped := Extractor.Process(det, zone, hm);
  }

  /** Peaks, zones, contacts and edge compensation. While the weighted sums of all zones of a single peak fit 32 bits
      every contact ends on the panel, whole in 1/256, and none is moved inward. */
  method Process(det: Detector.PeakDetector, zone: Expander.ZoneExpander, edge: EdgeCompensator, hm: seq<int>)
    returns (out: seq<Contact>, ghost contacts: seq<Contact>, ghost t: Expander.Trace, ghost kept: seq<Peak>,
      ghost dropped: seq<Peak>)
    requires OnCells(hm) && zone.Valid() && TholdFits(zone.numer, det.cfg.threshold) && ProfileOk(edge.profile)
    requires det.cfg.threshold > 0 && (det.cfg.edgeThresholdEnabled ==> det.cfg.edgeThreshold > 0)
    modifies det, zone, zone.touchZones
    ensures zone.Valid() && zone.touchZones == old(zone.touchZones)
    ensures Extractor.Detected(det.cfg, hm, kept, dropped, det.peaks)
    ensures ContactsOf(zone.numer, det.cfg.threshold, zone.maxTouches, hm, det.peaks, t, zone.edgeInfos, contacts)
    ensures |contacts| == if zone.maxTouches > 0 then Min(|det.peaks|, zone.maxTouches) else |det.peaks|
    ensures EdgeDone(edge.enabled, edge.profile, edge.ecBlendRange, contacts, zone.edgeInfos, out)
    ensures |out| <= |zone.edgeInfos| && forall c :: c in out ==> Tracker.ContactInRange(c)
    ensures AllFit(t) ==> forall k :: 0 <= k < |out| ==> OnPanel(PANEL, out[k])
    ensures AllFit(t) && edge.enabled ==>
              forall k :: 0 <= k < |out| ==> PushedOut(contacts[k], zone.edgeInfos[k], out[k])
  {
    var found;
    found, t, kept, dropped := Extract(det, zone, hm);
    contacts := found;
    ContactsOnCentres(zone.numer, det.cfg.threshold, zone.maxTouches, hm, det.peaks, t, zone.edgeInfos, contacts);
    PanelIsValid();
    out := edge.Process(found, zone.edgeInfos, PANEL);
    AllInReach(edge.enabled, edge.profile, edge.ecBlendRange, contacts, zone.edgeInfos, out);
    if AllFit(t) { AllPushedOut(edge.enabled, edge.profile, edge.ecBlendRange, contacts, zone.edgeInfos, out); }
  }

  /** From the heat map through the tracker: whatever the heat map, its compensated contacts suit the tracker by
      themselves; it takes its step on them and reports distinct ids. */
  method Frame(det: Detector.PeakDetector, zone: Expander.ZoneExpander, edge: EdgeCompensator,
               tracker: Tracker.TouchTracker, hm: seq<int>, pen: T.Pen)
    returns (out: seq<Contact>, ghost placed: seq<Contact>, ghost contacts: seq<Contact>, ghost t: Expander.Trace,
      ghost kept: seq<Peak>, ghost dropped: seq<Peak>)
    requires OnCells(hm) && zone.Valid() && TholdFits(zone.numer, det.cfg.threshold) && ProfileOk(edge.profile)
    requires det.cfg.threshold > 0 && (det.cfg.edgeThresholdEnabled ==> det.cfg.edgeThreshold > 0)
    requires tracker.Valid()
    modifies det, zone, zone.touchZones, tracker
    ensures zone.Valid() && tracker.Valid()
    ensures Extractor.Detected(det.cfg, hm, kept, dropped, det.peaks)
    ensures ContactsOf(zone.numer, det.cfg.threshold, zone.maxTouches, hm, det.peaks, t, zone.edgeInfos, contacts)
    ensures |contacts| == if zone.maxTouches > 0 then Min(|det.peaks|, zone.maxTouches) else |det.peaks|
    ensures EdgeDone(edge.enabled, edge.profile, edge.ecBlendRange, contacts, zone.edgeInfos, placed)
    ensures AllFit(t) ==> forall k :: 0 <= k < |placed| ==> OnPanel(PANEL, placed[k])
    ensures AllFit(t) && edge.enabled && |placed| <= |zone.edgeInfos| ==>
              forall k :: 0 <= k < |placed| ==> PushedOut(contacts[k], zone.edgeInfos[k], placed[k])
    ensures T.Step(tracker.cfg, old(tracker.Snapshot()), T.Frame(placed, pen), out, tracker.Snapshot())
    ensures F.StateOk(tracker.cfg, tracker.Snapshot()) && ValidIds(T.ContactIds(out))
  {
    var found;
    found, contacts, t, kept, dropped := Process(det, zone, edge, hm);
    placed := found;
    out := tracker.Process(T.Frame(found, pen));
  }
}
