/** The zone expander: floods a zone from every peak, closes the map, and turns the zones into contacts. */
module Expander {
  import opened EngineTypes
  import opened ZoneGrid
  import opened ZoneInfo
  import opened ZoneFlood
  import opened ZoneClose
  import opened ZonePeaks
  import opened ZoneRun
  import opened ZoneContacts
  import opened Zones

  ghost predicate Cleared(map1: seq<int>) {
    OnCells(map1) && forall j :: 0 <= j < CELLS ==> map1[j] == 0
  }

  /** Number of zones flooded by the first `n` peaks. */
  ghost function Floods(h: History, n: nat): nat
    requires n <= |h.marks|
  {
    if n == 0 then 0 else Floods(h, n - 1) + if h.marks[n - 1] == {} then 0 else 1
  }

  lemma {:induction false} FloodsPrefix(h: History, h': History, n: nat)
    requires n <= |h.marks| && h.marks <= h'.marks
    ensures Floods(h, n) == Floods(h', n)
  {
    if n > 0 { FloodsPrefix(h, h', n - 1); }
  }

  /** The next label is not on the map yet. */
  lemma LabelsBelow(hm: seq<int>, peaks: seq<Peak>, tholds: seq<int>, h: History, n: nat)
    requires FloodRun(hm, peaks, tholds, h, n)
    ensures Unused(h.maps[n], n + 1)
  {
    Labelled(hm, peaks, tholds, h, n, n);
  }

  /** A skipped peak leaves its unit empty. */
  lemma SkipPeak(hm: seq<int>, peaks: seq<Peak>, h: History, n: nat, units: seq<Unit>, edges: seq<EdgeInfo>,
                 pss: seq<seq<Pixel>>, map1: seq<int>)
    requires OnCells(hm) && UnitsOk(hm, peaks, h, n, units, edges, pss) && n < |peaks|
    ensures UnitsOk(hm, peaks, Extended(h, map1, {}, {}), n + 1, units, edges, pss + [[]])
  {
    assert Extended(h, map1, {}, {}).marks[n] == {};
    ExtendUnits(hm, peaks, h, n, units, edges, pss, map1, {}, {}, units[n], edges[n], []);
    assert units[n := units[n]] == units && edges[n := edges[n]] == edges;
  }

  /** A flood adds a sound unit to the sound ones before it. */
  lemma FloodExtends(hm: seq<int>, peaks: seq<Peak>, h: History, n: nat, units: seq<Unit>, edges: seq<EdgeInfo>,
                     pss: seq<seq<Pixel>>, map0: seq<int>, map1: seq<int>, thold: int, core: set<int>, mark: set<int>,
                     u: Unit, e: EdgeInfo, ps: seq<Pixel>)
    requires PeaksOk(hm, peaks) && n < |peaks| && OnCells(map0) && OnCells(map1) && thold >= 1
    requires UnitsOk(hm, peaks, h, n, units, edges, pss)
    requires Flooded(hm, map0, map1, n + 1, thold, PeakCell(peaks[n]), core, mark) && PeakCell(peaks[n]) in core
    requires Counted(hm, ps, core, mark, u, e) && SameHeader(u, NewUnit(peaks[n], n))
    requires e.touchesBorder <==> exists c :: c in core && OnBorder(c)
    requires e.nearBorder <==> exists c :: c in core && NearBorder(c)
    ensures UnitsOk(hm, peaks, Extended(h, map1, core, mark), n + 1, units[n := u], edges[n := e], pss + [ps])
  {
    FloodedUnitOk(hm, peaks, h, n, map0, map1, thold, core, mark, u, e, ps);
    ExtendUnits(hm, peaks, h, n, units, edges, pss, map1, core, mark, u, e, ps);
  }

  /** What a frame went through: the floods with their pixels, the units after the floods, the zone of every
      peak, the units with all peaks listed, and the contacts before the cut. */
  datatype Trace = Trace(h: History, pixels: seq<seq<Pixel>>, flooded: seq<Unit>, labels: seq<int>, scanned: seq<Unit>,
                         all: seq<Contact>)

  class ZoneExpander {
    const numer: int
    const dilateErode: bool
    const maxTouches: int
    var touchZones: array<int>
    var units: seq<Unit>
    var edgeInfos: seq<EdgeInfo>
    var zoneCount: nat

    ghost predicate Valid()
      reads this
    {
      touchZones.Length == CELLS && 0 <= numer < 256
    }

    constructor (numer: int, dilateErode: bool, maxTouches: int)
      requires 0 <= numer < 256
      ensures Valid() && fresh(touchZones) && Cleared(touchZones[..])
      ensures units == [] && edgeInfos == [] && zoneCount == 0
      ensures this.numer == numer && this.dilateErode == dilateErode && this.maxTouches == maxTouches
    {
      this.numer, this.dilateErode, this.maxTouches := numer, dilateErode, maxTouches;
      touchZones := new int[CELLS](_ => 0);
      units, edgeInfos, zoneCount := [], [], 0;
    }

    method Reset()
      requires Valid()
      modifies this, touchZones
      ensures Valid() && touchZones == old(touchZones)
      ensures Cleared(touchZones[..]) && units == [] && edgeInfos == [] && zoneCount == 0
    {
      for j := 0 to CELLS
        invariant touchZones == old(touchZones) && Valid()
        invariant forall k :: 0 <= k < j ==> touchZones[k] == 0
      {
        touchZones[j] := 0;
      }
      units, edgeInfos, zoneCount := [], [], 0;
    }

    /** Flood the zone of a peak whose cell is unmarked. */
    method FloodZone(hm: seq<int>, peaks: seq<Peak>, thold: int, n: nat, ghost h0: History, ghost us: seq<Unit>,
                     ghost es: seq<EdgeInfo>, ghost pss0: seq<seq<Pixel>>)
      returns (u: Unit, e: EdgeInfo, ghost pss: seq<seq<Pixel>>, ghost core: set<int>, ghost mark: set<int>)
      requires Valid() && PeaksOk(hm, peaks) && n < |peaks| && thold >= 1
      requires touchZones[..][PeakCell(peaks[n])] == 0 && Unused(touchZones[..], n + 1)
      requires UnitsOk(hm, peaks, h0, n, us, es, pss0)
      modifies touchZones
      ensures Flooded(hm, old(touchZones[..]), touchZones[..], n + 1, thold, PeakCell(peaks[n]), core, mark)
      ensures PeakCell(peaks[n]) in core
      ensures UnitsOk(hm, peaks, Extended(h0, touchZones[..], core, mark), n + 1, us[n := u], es[n := e], pss)
    {
      ghost var before := touchZones[..];
      ghost var ps;
      u, e, core, mark, ps := FloodFill(hm, touchZones, n + 1, thold, PeakCell(peaks[n]), NewUnit(peaks[n], n));
      pss := pss0 + [ps];
      FloodExtends(hm, peaks, h0, n, us, es, pss0, before, touchZones[..], thold, core, mark, u, e, ps);
    }

    /** A peak whose cell is unmarked: flood its zone and store its unit. */
    method FloodNew(hm: seq<int>, peaks: seq<Peak>, thold: int, n: nat, ghost h0: History, ghost pss0: seq<seq<Pixel>>)
      returns (ghost pss: seq<seq<Pixel>>, ghost core: set<int>, ghost mark: set<int>)
      requires Valid() && PeaksOk(hm, peaks) && n < |peaks| && thold >= 1
      requires touchZones[..][PeakCell(peaks[n])] == 0 && Unused(touchZones[..], n + 1)
      requires UnitsOk(hm, peaks, h0, n, units, edgeInfos, pss0)
      modifies this, touchZones
      ensures Valid() && touchZones == old(touchZones) && zoneCount == old(zoneCount) + 1
      ensures Flooded(hm, old(touchZones[..]), touchZones[..], n + 1, thold, PeakCell(peaks[n]), core, mark)
      ensures PeakCell(peaks[n]) in core && PeakCell(peaks[n]) in mark
      ensures UnitsOk(hm, peaks, Extended(h0, touchZones[..], core, mark), n + 1, units, edgeInfos, pss)
    {
      var u, e;
      u, e, pss, core, mark := FloodZone(hm, peaks, thold, n, h0, units, edgeInfos, pss0);
      units, edgeInfos, zoneCount := units[n := u], edgeInfos[n := e], zoneCount + 1;
    }

    /** One peak: skip it when its cell is marked already, flood its zone otherwise. */
    method FloodPeak(hm: seq<int>, peaks: seq<Peak>, sigThold: int, n: nat, ghost h0: History,
                     ghost pss0: seq<seq<Pixel>>)
      returns (ghost h: History, ghost pss: seq<seq<Pixel>>)
      requires Valid() && n < |peaks| && TholdFits(numer, sigThold)
      requires FloodRun(hm, peaks, Tholds(numer, sigThold, peaks), h0, n) && touchZones[..] == h0.maps[n]
      requires UnitsOk(hm, peaks, h0, n, units, edgeInfos, pss0) && zoneCount == Floods(h0, n)
      modifies this, touchZones
      ensures Valid() && touchZones == old(touchZones)
      ensures FloodRun(hm, peaks, Tholds(numer, sigThold, peaks), h, n + 1) && touchZones[..] == h.maps[n + 1]
      ensures UnitsOk(hm, peaks, h, n + 1, units, edgeInfos, pss) && zoneCount == Floods(h, n + 1)
    {
      var cell := PeakCell(peaks[n]);
      ghost var core: set<int>, mark: set<int> := {}, {};
      ghost var before := touchZones[..];
      assert before[cell] == touchZones[cell];
      if touchZones[cell] == 0 {
        LabelsBelow(hm, peaks, Tholds(numer, sigThold, peaks), h0, n);
        TholdIsExact(numer, sigThold, peaks[n].z);
        pss, core, mark := FloodNew(hm, peaks, CalcZoneThold(numer, sigThold, peaks[n].z), n, h0, pss0);
        h := Extended(h0, touchZones[..], core, mark);
      } else {
        h, pss := Extended(h0, before, core, mark), pss0 + [[]];
        SkipPeak(hm, peaks, h0, n, units, edgeInfos, pss0, before);
      }
      ExtendRun(hm, peaks, Tholds(numer, sigThold, peaks), h0, n, touchZones[..], core, mark);
      FloodsPrefix(h0, h, n);
    }

    /** All peaks, in order. */
    method FloodAll(hm: seq<int>, peaks: seq<Peak>, sigThold: int)
      returns (ghost h: History, ghost pss: seq<seq<Pixel>>)
      requires Valid() && PeaksOk(hm, peaks) && TholdFits(numer, sigThold)
      modifies this, touchZones
      ensures Valid() && touchZones == old(touchZones)
      ensures FloodRun(hm, peaks, Tholds(numer, sigThold, peaks), h, |peaks|) && touchZones[..] == h.maps[|peaks|]
      ensures UnitsOk(hm, peaks, h, |peaks|, units, edgeInfos, pss) && zoneCount == Floods(h, |peaks|)
    {
      Reset();
      units, edgeInfos := seq(|peaks|, _ => NO_UNIT), seq(|peaks|, _ => NO_EDGE);
      h, pss := History([touchZones[..]], [], []), [];
      for n := 0 to |peaks|
        invariant Valid() && touchZones == old(touchZones)
        invariant FloodRun(hm, peaks, Tholds(numer, sigThold, peaks), h, n) && touchZones[..] == h.maps[n]
        invariant UnitsOk(hm, peaks, h, n, units, edgeInfos, pss) && zoneCount == Floods(h, n)
      {
        h, pss := FloodPeak(hm, peaks, sigThold, n, h, pss);
      }
    }

    /** The peak's list already names it. */
    method AlreadyListed(indices: seq<int>, p: int) returns (found: bool)
      ensures found == (p in indices)
    {
      found := false;
      for k := 0 to |indices|
        invariant found == (p in indices[..k])
      {
        if indices[k] == p { return true; }
      }
    }

    /** Unit of every zone label, from the units that hold an area. */
    method UnitOfZone(ghost labels: seq<int>) returns (zoneToUnit: seq<int>)
      requires Unscanned(labels, units)
      ensures |zoneToUnit| == MAX_PEAKS + 1
      ensures forall p: nat :: p < |labels| && IsRoot(labels, p) ==> zoneToUnit[p + 1] == p
    {
      zoneToUnit := seq(MAX_PEAKS + 1, _ => -1);
      for p := 0 to |units|
        invariant |zoneToUnit| == MAX_PEAKS + 1
        invariant forall q: nat :: q < p && IsRoot(labels, q) ==> zoneToUnit[q + 1] == q
      {
        if units[p].area == 0 { continue; }
        if p + 1 < MAX_PEAKS + 1 { zoneToUnit := zoneToUnit[p + 1 := p]; }
      }
    }

    /** List a peak in the unit that owns its zone. */
    method AddToOwner(k: int, zid: int, zoneToUnit: seq<int>)
      requires 1 <= zid <= |units| <= MAX_PEAKS && |zoneToUnit| == MAX_PEAKS + 1 && zoneToUnit[zid] == zid - 1
      modifies this`units
      ensures units == old(units)[zid - 1 := WithPeak(old(units)[zid - 1], k)]
    {
      var owner := zoneToUnit[zid];
      var found := AlreadyListed(units[owner].peakIndices, k);
      if !found {
        units := units[owner := units[owner].(peakIndices := units[owner].peakIndices + [k])];
      }
    }

    /** Look up the zone of peak `k`. */
    method ScanPeakZone(k: nat, zid: int, zoneToUnit: seq<int>, ghost labels: seq<int>, ghost units0: seq<Unit>)
      requires k < |labels| == |units0| <= MAX_PEAKS && Rooted(labels)
      requires zid == labels[k] && ScannedUnits(labels, units0, units, k)
      requires |zoneToUnit| == MAX_PEAKS + 1
      requires forall p: nat :: p < |labels| && IsRoot(labels, p) ==> zoneToUnit[p + 1] == p
      modifies this`units
      ensures ScannedUnits(labels, units0, units, k + 1)
    {
      OwnerIsRoot(labels, k);
      ScanPeak(labels, units0, units, k, zid - 1);
      if 0 < zid < MAX_PEAKS + 1 { AddToOwner(k, zid, zoneToUnit); }
    }

    /** Look up the zone of every peak and list the peak there. */
    method ScanAbsorbedPeaks(hm: seq<int>, peaks: seq<Peak>, ghost labels: seq<int>)
      requires Valid() && PeaksOk(hm, peaks)
      requires labels == LabelsOf(hm, peaks, touchZones[..]) && Unscanned(labels, units)
      modifies this`units
      ensures ScannedUnits(labels, old(units), units, |peaks|)
    {
      ghost var units0 := units;
      var zoneToUnit := UnitOfZone(labels);
      for k := 0 to |peaks|
        invariant ScannedUnits(labels, units0, units, k)
      {
        var zid := touchZones[PeakCell(peaks[k])];
        assert zid == labels[k];
        ScanPeakZone(k, zid, zoneToUnit, labels, units0);
      }
    }

    /** Sums over the positive cells of a window. */
    method SumWindow(hm: seq<int>, ns: seq<int>) returns (wCol: int, wRow: int, wTotal: int)
      requires OnCells(hm) && forall k :: 0 <= k < |ns| ==> IsCell(ns[k])
      ensures wCol == WindowSum(hm, ns, |ns|, ByCol) && wRow == WindowSum(hm, ns, |ns|, ByRow)
      ensures wTotal == WindowSum(hm, ns, |ns|, ByOne)
    {
      wCol, wRow, wTotal := 0, 0, 0;
      for k := 0 to |ns|
        invariant wCol == WindowSum(hm, ns, k, ByCol) && wRow == WindowSum(hm, ns, k, ByRow)
        invariant wTotal == WindowSum(hm, ns, k, ByOne)
      {
        var sig := hm[ns[k]];
        if sig <= 0 { continue; }
        wCol, wRow, wTotal := wCol + Col(ns[k]) * 128 * sig, wRow + Row(ns[k]) * 128 * sig, wTotal + sig;
      }
    }

    /** Centroid over the 3 by 3 window of a peak. */
    method LocalCentroid(hm: seq<int>, pk: Peak, area: int, sig: int) returns (c: Contact)
      requires OnCells(hm)
      ensures c == LocalContact(hm, pk, area, sig)
    {
      var wCol, wRow, wTotal := SumWindow(hm, Window(pk.r, pk.c, 0));
      if wTotal == 0 { wTotal := 1; }
      c := BLANK.(id := pk.id, x := Centroid(wCol, wTotal), y := Centroid(wRow, wTotal),
                  area := area, signalSum := sig, state := StateDown);
    }

    /** Contact of one peak of a shared zone. */
    method SharedContact(hm: seq<int>, pk: Peak, u: Unit) returns (c: Contact)
      requires OnCells(hm) && |u.peakIndices| >= 2
      ensures c == ContactOf(hm, pk, u)
    {
      var n := |u.peakIndices|;
      c := LocalCentroid(hm, pk, TruncDiv(u.area, n), TruncDiv(u.signalSum, n));
    }

    /** Contacts of one zone. */
    method ContactsOfZone(hm: seq<int>, peaks: seq<Peak>, u: Unit, ghost want: seq<Contact>)
      returns (contacts: seq<Contact>)
      requires OnCells(hm) && |want| == |peaks| && WantedBy(hm, peaks, want, u)
      ensures ContactsFollow(want, u.peakIndices, contacts)
    {
      if |u.peakIndices| < 2 {
        return [SingleContact(u, peaks[u.peakIndices[0]].id)];
      }
      contacts := [];
      for k := 0 to |u.peakIndices|
        invariant ContactsFollow(want, u.peakIndices[..k], contacts)
      {
        var c := SharedContact(hm, peaks[u.peakIndices[k]], u);
        contacts := contacts + [c];
      }
      assert u.peakIndices[..|u.peakIndices|] == u.peakIndices;
    }

    /** Contacts of the zone flooded from peak `p`. */
    method ContactsOfUnit(hm: seq<int>, peaks: seq<Peak>, u: Unit, ghost labels: seq<int>, ghost units0: seq<Unit>,
                          ghost want: seq<Contact>, ghost p: nat) returns (contacts: seq<Contact>)
      requires OnCells(hm) && Ready(labels, units0) && |labels| == |peaks|
      requires p < |labels| && u == units0[p] && HasZone(u)
      requires want == Expected(hm, peaks, labels, units0, |peaks|)
      ensures IsRoot(labels, p) && ContactsFollow(want, Owned(labels, p, |labels|), contacts)
    {
      UnitWants(hm, peaks, labels, units0, want, p);
      contacts := ContactsOfZone(hm, peaks, u, want);
    }

    /** The unit of one peak: classify its zone and give the zone's contacts, if it has one. */
    method FinishUnit(hm: seq<int>, peaks: seq<Peak>, p: nat, contacts0: seq<Contact>, ghost labels: seq<int>,
                      ghost units0: seq<Unit>, ghost want: seq<Contact>) returns (contacts: seq<Contact>)
      requires OnCells(hm) && Ready(labels, units0) && |labels| == |peaks|
      requires p < |units| == |labels| && units[p] == units0[p]
      requires want == Expected(hm, peaks, labels, units0, |peaks|)
      requires ContactsFollow(want, Roster(labels, p), contacts0)
      modifies this`units
      ensures units == old(units)[p := Finished(units0[p])] && ContactsFollow(want, Roster(labels, p + 1), contacts)
    {
      var u := units[p];
      if u.area == 0 || u.weightTotal == 0 {
        ZoneSkipsList(want, labels, p, contacts0);
        return contacts0;
      }
      var more := ContactsOfUnit(hm, peaks, u, labels, units0, want, p);
      ZoneFollowsList(want, labels, p, contacts0, more);
      contacts := contacts0 + more;
      units := units[p := Classified(u)];
    }

    /** Classify every zone and give its contacts. */
    method ComputeCentroidsAndContacts(hm: seq<int>, peaks: seq<Peak>, ghost labels: seq<int>)
      returns (contacts: seq<Contact>)
      requires OnCells(hm) && Ready(labels, units) && |labels| == |peaks|
      modifies this`units
      ensures |units| == |old(units)| && forall p :: 0 <= p < |units| ==> units[p] == Finished(old(units)[p])
      ensures ContactsFollow(Expected(hm, peaks, labels, old(units), |peaks|), Roster(labels, |labels|), contacts)
    {
      ghost var units0 := units;
      ghost var want := Expected(hm, peaks, labels, units0, |peaks|);
      contacts := [];
      for p := 0 to |units|
        invariant |units| == |units0| == |labels|
        invariant forall k :: 0 <= k < p ==> units[k] == Finished(units0[k])
        invariant forall k :: p <= k < |units| ==> units[k] == units0[k]
        invariant ContactsFollow(want, Roster(labels, p), contacts)
      {
        contacts := FinishUnit(hm, peaks, p, contacts, labels, units0, want);
      }
    }

    /** The map is closed when configured; the peaks keep their zones. */
    method CloseMap(hm: seq<int>, peaks: seq<Peak>, ghost tholds: seq<int>, ghost h: History)
      returns (ghost labels: seq<int>)
      requires Valid() && FloodRun(hm, peaks, tholds, h, |peaks|) && touchZones[..] == h.maps[|peaks|]
      modifies touchZones
      ensures touchZones[..] == if dilateErode then Closed(h.maps[|peaks|]) else h.maps[|peaks|]
      ensures labels == LabelsOf(hm, peaks, h.maps[|peaks|]) == LabelsOf(hm, peaks, touchZones[..])
    {
      labels := LabelsOf(hm, peaks, h.maps[|peaks|]);
      Labelled(hm, peaks, tholds, h, |peaks|, |peaks|);
      CloseKeepsLabels(hm, peaks, h.maps[|peaks|]);
      if dilateErode { DilateAndErode(touchZones); }
    }

    /** A frame: floods, close, absorbed peaks, contacts, cut. Every peak gets exactly one contact; the cut
        leaves the strongest. */
    method Process(hm: seq<int>, peaks: seq<Peak>, sigThold: int) returns (contacts: seq<Contact>, ghost t: Trace)
      requires Valid() && PeaksOk(hm, peaks) && TholdFits(numer, sigThold)
      modifies this, touchZones
      ensures Valid() && touchZones == old(touchZones)
      ensures FloodRun(hm, peaks, Tholds(numer, sigThold, peaks), t.h, |peaks|) && zoneCount == Floods(t.h, |peaks|)
      ensures touchZones[..] == if dilateErode then Closed(t.h.maps[|peaks|]) else t.h.maps[|peaks|]
      ensures UnitsOk(hm, peaks, t.h, |peaks|, t.flooded, edgeInfos, t.pixels)
      ensures t.labels == LabelsOf(hm, peaks, t.h.maps[|peaks|]) && Rooted(t.labels)
      ensures ScannedUnits(t.labels, t.flooded, t.scanned, |peaks|)
      ensures |units| == |peaks| && forall p :: 0 <= p < |units| ==> units[p] == Finished(t.scanned[p])
      ensures ContactsFollow(Expected(hm, peaks, t.labels, t.scanned, |peaks|), Roster(t.labels, |peaks|), t.all)
      ensures |t.all| == |peaks| && IsCut(t.all, maxTouches, contacts)
      ensures |contacts| == if maxTouches > 0 then Min(|peaks|, maxTouches) else |peaks|
    {
      ghost var h, pss := FloodAll(hm, peaks, sigThold);
      ghost var flooded := units;
      ghost var labels := CloseMap(hm, peaks, Tholds(numer, sigThold, peaks), h);
      FloodedUnitsUnscanned(hm, peaks, Tholds(numer, sigThold, peaks), h, units, edgeInfos, pss);
      ScanAbsorbedPeaks(hm, peaks, labels);
      ghost var scanned := units;
      ScannedAreReady(labels, flooded, scanned);
      contacts := ComputeCentroidsAndContacts(hm, peaks, labels);
      t := Trace(h, pss, flooded, labels, scanned, contacts);
      RosterIsPartition(labels);
      contacts := Cut(contacts, maxTouches);
      if maxTouches > 0 { CutKeepsStrongest(t.all, maxTouches, contacts); }
    }
  }
}
