/** ZoneExpander: floods a zone from every peak, closes the map, and turns zones into contacts. */
module Zones {
  import opened EngineTypes
  import opened ZoneGrid
  import opened ZoneInfo
  import opened ZoneFlood
  import opened ZoneClose
  import opened ZonePeaks
  import opened ZoneRun
  import opened ZoneContacts

  const THOLD_SHIFT: int := 128   // 1 << 7

  /** Zone threshold: the scaled lesser of the detection threshold and the peak, at least one, in 16 bits. */
  function CalcZoneThold(numer: int, sigThold: int, peakSig: int): int {
    ToShort(Max(1, (Min(sigThold, peakSig) * numer) / THOLD_SHIFT))
  }

  /** The conversion to 16 bits changes no zone threshold. */
  predicate TholdFits(numer: int, sigThold: int) {
    0 <= numer && sigThold * numer / THOLD_SHIFT <= SHORT_MAX
  }

  lemma ScaleIsMonotone(numer: int, a: int, b: int)
    requires 0 <= numer && a <= b
    ensures a * numer / THOLD_SHIFT <= b * numer / THOLD_SHIFT
  {
    MulLe(a, b, numer);
  }

  lemma TholdIsExact(numer: int, sigThold: int, z: int)
    requires TholdFits(numer, sigThold)
    ensures CalcZoneThold(numer, sigThold, z) == Max(1, (Min(sigThold, z) * numer) / THOLD_SHIFT) >= 1
  {
    ScaleIsMonotone(numer, Min(sigThold, z), sigThold);
  }

  /** The zone threshold is the scaled lesser signal in whole 128ths, and at least one. */
  lemma TholdMeans(numer: int, sigThold: int, z: int) returns (m: int)
    requires TholdFits(numer, sigThold)
    ensures m <= sigThold && m <= z && (m == sigThold || m == z)
    ensures var t := CalcZoneThold(numer, sigThold, z); 128 * t <= Max(128, m * numer) < 128 * t + 128
  {
    m := Min(sigThold, z);
    TholdIsExact(numer, sigThold, z);
  }

  function Tholds(numer: int, sigThold: int, peaks: seq<Peak>): (t: seq<int>)
    ensures |t| == |peaks| && forall p :: 0 <= p < |t| ==> t[p] == CalcZoneThold(numer, sigThold, peaks[p].z)
  {
    seq(|peaks|, p requires 0 <= p < |peaks| => CalcZoneThold(numer, sigThold, peaks[p].z))
  }

  /** Peaks that reach the detection threshold share the zone threshold; each reaches it or stands alone. */
  lemma PeaksShareThold(numer: int, sigThold: int, hm: seq<int>, peaks: seq<Peak>)
    requires TholdFits(numer, sigThold) && PeaksOk(hm, peaks)
    requires forall p :: 0 <= p < |peaks| ==> peaks[p].z >= sigThold
    requires forall p: nat {:trigger Alone(hm, peaks, p)} :: p < |peaks| ==>
               peaks[p].z >= CalcZoneThold(numer, sigThold, sigThold) || Alone(hm, peaks, p)
    ensures CommonThold(hm, peaks, Tholds(numer, sigThold, peaks), CalcZoneThold(numer, sigThold, sigThold))
  {
    TholdIsExact(numer, sigThold, sigThold);
  }

  /** With a scale of at most one, positive peaks that reach the detection threshold reach the zone threshold. */
  lemma StrongPeaksReachThold(numer: int, sigThold: int, z: int)
    requires 0 <= numer <= THOLD_SHIFT && sigThold <= SHORT_MAX && z >= sigThold && z > 0
    ensures TholdFits(numer, sigThold) && CalcZoneThold(numer, sigThold, sigThold) <= z
  {
    if sigThold > 0 {
      MulLe(numer, THOLD_SHIFT, sigThold);
      assert sigThold * numer == numer * sigThold <= THOLD_SHIFT * sigThold;
    } else {
      MulLe(sigThold, 0, numer);
    }
  }

  /** Header a zone starts with. */
  function NewUnit(pk: Peak, p: int): Unit {
    NO_UNIT.(peakCol := pk.c, peakRow := pk.r, peakSig := pk.z, peakIndices := [p])
  }

  /** Unit and border sums of peak `p` after the floods. */
  ghost predicate UnitOk(hm: seq<int>, peaks: seq<Peak>, h: History, p: nat, u: Unit, e: EdgeInfo, ps: seq<Pixel>)
    requires OnCells(hm) && p < |peaks| && p < |h.cores| && p < |h.marks|
  {
    if h.marks[p] == {} then u == NO_UNIT && e == NO_EDGE
    else
      && h.cores[p] != {} && h.cores[p] <= h.marks[p]
      && (forall j :: j in h.cores[p] ==> IsCell(j) && hm[j] > 0)
      && Counted(hm, ps, h.cores[p], h.marks[p], u, e)
      && SameHeader(u, NewUnit(peaks[p], p))
      && (e.touchesBorder <==> exists c :: c in h.cores[p] && OnBorder(c))
      && (e.nearBorder <==> exists c :: c in h.cores[p] && NearBorder(c))
  }

  ghost predicate UnitsOk(hm: seq<int>, peaks: seq<Peak>, h: History, n: nat, units: seq<Unit>, edges: seq<EdgeInfo>,
                          pss: seq<seq<Pixel>>)
    requires OnCells(hm)
  {
    && n <= |peaks| && |h.cores| == n && |h.marks| == n && |units| == |edges| == |peaks| && |pss| == n
    && (forall p: nat {:trigger UnitOk(hm, peaks, h, p, units[p], edges[p], pss[p])} :: p < n ==>
          UnitOk(hm, peaks, h, p, units[p], edges[p], pss[p]))
    && (forall p :: n <= p < |peaks| ==> units[p] == NO_UNIT && edges[p] == NO_EDGE)
  }

  function Extended(h: History, map1: seq<int>, core: set<int>, mark: set<int>): History {
    History(h.maps + [map1], h.cores + [core], h.marks + [mark])
  }

  /** One more peak on the history. */
  lemma ExtendRun(hm: seq<int>, peaks: seq<Peak>, tholds: seq<int>, h: History, n: nat, map1: seq<int>, core: set<int>,
                  mark: set<int>)
    requires FloodRun(hm, peaks, tholds, h, n) && n < |peaks| && OnCells(map1)
    requires var cell := PeakCell(peaks[n]);
      if h.maps[n][cell] != 0 then map1 == h.maps[n] && core == {} && mark == {}
      else cell in core && Flooded(hm, h.maps[n], map1, n + 1, tholds[n], cell, core, mark)
    ensures FloodRun(hm, peaks, tholds, Extended(h, map1, core, mark), n + 1)
  {
    var h', m := Extended(h, map1, core, mark), n + 1;
    forall p: nat | p < m ensures FloodedAt(hm, peaks, tholds, h', m, p) {
      if p < n {
        assert FloodedAt(hm, peaks, tholds, h, n, p);
        assert h'.maps[p] == h.maps[p] && h'.maps[p + 1] == h.maps[p + 1];
      }
    }
  }

  lemma ExtendUnits(hm: seq<int>, peaks: seq<Peak>, h: History, n: nat, units: seq<Unit>, edges: seq<EdgeInfo>,
                    pss: seq<seq<Pixel>>, map1: seq<int>, core: set<int>, mark: set<int>, u: Unit, e: EdgeInfo,
                    ps: seq<Pixel>)
    requires OnCells(hm) && UnitsOk(hm, peaks, h, n, units, edges, pss) && n < |peaks|
    requires UnitOk(hm, peaks, Extended(h, map1, core, mark), n, u, e, ps)
    ensures UnitsOk(hm, peaks, Extended(h, map1, core, mark), n + 1, units[n := u], edges[n := e], pss + [ps])
  {
    var h' := Extended(h, map1, core, mark);
    var us, es, pp := units[n := u], edges[n := e], pss + [ps];
    forall p: nat | p < n + 1 ensures UnitOk(hm, peaks, h', p, us[p], es[p], pp[p]) {
      if p < n {
        assert UnitOk(hm, peaks, h, p, units[p], edges[p], pss[p]);
        assert h'.cores[p] == h.cores[p] && h'.marks[p] == h.marks[p];
      }
    }
  }

  /** What a flood leaves is a sound unit. */
  lemma FloodedUnitOk(hm: seq<int>, peaks: seq<Peak>, h: History, n: nat, zones0: seq<int>, zones1: seq<int>,
                      thold: int, core: set<int>, mark: set<int>, u: Unit, e: EdgeInfo, ps: seq<Pixel>)
    requires PeaksOk(hm, peaks) && n < |peaks| && |h.cores| == n && |h.marks| == n
    requires OnCells(zones0) && OnCells(zones1) && thold >= 1
    requires Flooded(hm, zones0, zones1, n + 1, thold, PeakCell(peaks[n]), core, mark) && PeakCell(peaks[n]) in core
    requires Counted(hm, ps, core, mark, u, e) && SameHeader(u, NewUnit(peaks[n], n))
    requires e.touchesBorder <==> exists c :: c in core && OnBorder(c)
    requires e.nearBorder <==> exists c :: c in core && NearBorder(c)
    ensures UnitOk(hm, peaks, Extended(h, zones1, core, mark), n, u, e, ps)
  {
    var h' := Extended(h, zones1, core, mark);
    assert h'.cores[n] == core && h'.marks[n] == mark;
    var cell := PeakCell(peaks[n]);
    assert cell in mark && hm[cell] > 0;
    forall j | j in core ensures j in mark { }
    forall j | j in core ensures IsCell(j) && hm[j] > 0 { }
  }

  // ----- which zone a peak ends up in -----

  /** Zone of every peak on a map. */
  ghost function LabelsOf(hm: seq<int>, peaks: seq<Peak>, map1: seq<int>): (labels: seq<int>)
    requires PeaksOk(hm, peaks) && OnCells(map1)
    ensures |labels| == |peaks| && forall q :: 0 <= q < |labels| ==> labels[q] == map1[PeakCell(peaks[q])]
  {
    seq(|peaks|, q requires 0 <= q < |peaks| => map1[PeakCell(peaks[q])])
  }

  /** After the floods every peak is in a zone, and every zone holds the peak it was flooded from. */
  lemma PeaksHaveRoots(hm: seq<int>, peaks: seq<Peak>, tholds: seq<int>, h: History)
    requires FloodRun(hm, peaks, tholds, h, |peaks|)
    ensures Rooted(LabelsOf(hm, peaks, h.maps[|peaks|]))
    ensures forall p: nat :: p < |peaks| ==> (IsRoot(LabelsOf(hm, peaks, h.maps[|peaks|]), p) <==> h.marks[p] != {})
  {
    var n := |peaks|;
    Labelled(hm, peaks, tholds, h, n, n);
    var labels := LabelsOf(hm, peaks, h.maps[n]);
    forall q | 0 <= q < n ensures 1 <= labels[q] <= q + 1 && labels[labels[q] - 1] == labels[q] {
      if h.marks[q] == {} {
        var cell := PeakCell(peaks[q]);
        assert cell in h.marks[labels[q] - 1];
      }
    }
  }

  /** The close leaves every peak in its zone. */
  lemma CloseKeepsLabels(hm: seq<int>, peaks: seq<Peak>, map1: seq<int>)
    requires PeaksOk(hm, peaks) && OnCells(map1) && forall q :: 0 <= q < |peaks| ==> map1[PeakCell(peaks[q])] != 0
    ensures LabelsOf(hm, peaks, Closed(map1)) == LabelsOf(hm, peaks, map1)
  {
    forall q | 0 <= q < |peaks| ensures Closed(map1)[PeakCell(peaks[q])] == map1[PeakCell(peaks[q])] {
      CloseNeverRelabels(map1, PeakCell(peaks[q]));
    }
  }

  /** Index list of zone `p + 1` while the first `k` peaks are looked up: its own peak, then the absorbed ones. */
  ghost function Scanned(labels: seq<int>, p: int, k: nat): seq<int>
    requires k <= |labels|
  {
    if k <= p then [p] else Owned(labels, p, k)
  }

  lemma ScanStep(labels: seq<int>, p: nat, k: nat)
    requires Rooted(labels) && k < |labels| && p < |labels| && IsRoot(labels, p)
    ensures Scanned(labels, p, k + 1) == if labels[k] == p + 1
            && k !in Scanned(labels, p, k) then Scanned(labels, p, k) + [k] else Scanned(labels, p, k)
  {
    OwnedMeans(labels, p, k);
    if k == p { OwnedStarts(labels, p, p + 1); NothingListed(Owned(labels, p, p)); }
    assert labels[k] <= k + 1;
  }

  predicate HasZone(u: Unit) { u.area != 0 && u.weightTotal != 0 }

  /** Zone type from the number of peaks and the area. */
  function Classified(u: Unit): Unit {
    u.(kind := if |u.peakIndices| >= 2 then MultiFinger else if u.area > 9 then FatFinger else NormalFinger)
  }

  /** Contact of a peak in the zone `u`: the zone's centroid when the peak is alone in it, the centroid of
      the peak's own window and an even share of the zone otherwise. */
  ghost function ContactOf(hm: seq<int>, pk: Peak, u: Unit): Contact
    requires OnCells(hm)
  {
    var n := |u.peakIndices|;
    if n >= 2 then LocalContact(hm, pk, TruncDiv(u.area, n), TruncDiv(u.signalSum, n))
    else if u.weightTotal != 0 then SingleContact(u, pk.id) else BLANK
  }

  /** The contacts the first `n` peaks shall have. */
  ghost function Expected(hm: seq<int>, peaks: seq<Peak>, labels: seq<int>, units: seq<Unit>, n: nat)
    : (want: seq<Contact>)
    requires OnCells(hm) && Rooted(labels) && |labels| == |units| == |peaks| && n <= |peaks|
    ensures |want| == n
  {
    if n == 0 then []
    else Expected(hm, peaks, labels, units, n - 1) + [ContactOf(hm, peaks[n - 1], units[labels[n - 1] - 1])]
  }

  lemma {:induction false} ExpectedAt(hm: seq<int>, peaks: seq<Peak>, labels: seq<int>, units: seq<Unit>, n: nat,
                                      q: nat)
    requires OnCells(hm) && Rooted(labels) && |labels| == |units| == |peaks| && q < n <= |peaks|
    ensures Expected(hm, peaks, labels, units, n)[q] == ContactOf(hm, peaks[q], units[labels[q] - 1])
  {
    if q < n - 1 { ExpectedAt(hm, peaks, labels, units, n - 1, q); }
  }

  /** The contacts are those wanted for a list of peaks. */
  ghost predicate ContactsFollow(want: seq<Contact>, list: seq<int>, contacts: seq<Contact>) {
    |contacts| == |list| && forall k :: 0 <= k < |list| ==> 0 <= list[k] < |want| && contacts[k] == want[list[k]]
  }

  /** Exactly one contact per peak. */
  lemma OneContactPerPeak(want: seq<Contact>, labels: seq<int>, list: seq<int>, contacts: seq<Contact>, q: nat)
    returns (k: nat)
    requires Rooted(labels) && |labels| == |want| && q < |want| && list == Roster(labels, |labels|)
    requires ContactsFollow(want, list, contacts)
    ensures |contacts| == |want|
    ensures k < |contacts| && list[k] == q && contacts[k] == want[q]
    ensures forall j :: 0 <= j < |contacts| && list[j] == q ==> j == k
  {
    RosterIsPartition(labels);
    DistinctMeans(list);
    assert q in list;
    k :| 0 <= k < |list| && list[k] == q;
  }

  /** Units before the lookup: a unit has an area exactly when its peak was flooded, and lists that peak only. */
  ghost predicate Unscanned(labels: seq<int>, units: seq<Unit>) {
    && |units| == |labels| <= MAX_PEAKS && Rooted(labels)
    && (forall p: nat :: p < |units| ==> (units[p].area != 0 <==> IsRoot(labels, p)))
    && (forall p: nat :: p < |units| ==> units[p].peakIndices == if IsRoot(labels, p) then [p] else [])
  }

  /** The unit once the first `k` peaks are looked up. */
  ghost function ScannedUnit(labels: seq<int>, u: Unit, p: nat, k: nat): Unit
    requires k <= |labels| && p < |labels|
  {
    if IsRoot(labels, p) then u.(peakIndices := Scanned(labels, p, k)) else u
  }

  ghost predicate ScannedUnits(labels: seq<int>, units0: seq<Unit>, units: seq<Unit>, k: nat)
    requires k <= |labels| == |units0|
  {
    |units| == |units0| && forall p: nat :: p < |units| ==> units[p] == ScannedUnit(labels, units0[p], p, k)
  }

  function WithPeak(u: Unit, k: int): Unit {
    if k in u.peakIndices then u else u.(peakIndices := u.peakIndices + [k])
  }

  lemma OwnerIsRoot(labels: seq<int>, k: nat)
    requires Rooted(labels) && k < |labels|
    ensures 1 <= labels[k] <= k + 1 && IsRoot(labels, labels[k] - 1)
  {
  }

  lemma ScanUnit(labels: seq<int>, u: Unit, p: nat, k: nat)
    requires Rooted(labels) && k < |labels| && p < |labels|
    ensures ScannedUnit(labels, u, p, k + 1) ==
      if labels[k] == p + 1 then WithPeak(ScannedUnit(labels, u, p, k), k) else ScannedUnit(labels, u, p, k)
  {
    if IsRoot(labels, p) {
      ScanStep(labels, p, k);
    } else {
      OwnerIsRoot(labels, k);
    }
  }

  /** Looking up peak `k` appends it to the list of its owner, unless it is there already. */
  lemma ScanPeak(labels: seq<int>, units0: seq<Unit>, units: seq<Unit>, k: nat, o: nat)
    requires Rooted(labels) && k < |labels| == |units0| && ScannedUnits(labels, units0, units, k)
    requires o + 1 == labels[k] && o < |units|
    ensures ScannedUnits(labels, units0, units[o := WithPeak(units[o], k)], k + 1)
  {
    var after := units[o := WithPeak(units[o], k)];
    forall p: nat | p < |units| ensures after[p] == ScannedUnit(labels, units0[p], p, k + 1) {
      ScanUnit(labels, units0[p], p, k);
    }
  }

  /** A flooded unit has a positive area and weight, an unflooded one none. */
  lemma FloodedUnitsUnscanned(hm: seq<int>, peaks: seq<Peak>, tholds: seq<int>, h: History, units: seq<Unit>,
                              edges: seq<EdgeInfo>, pss: seq<seq<Pixel>>)
    requires FloodRun(hm, peaks, tholds, h, |peaks|) && UnitsOk(hm, peaks, h, |peaks|, units, edges, pss)
    ensures Unscanned(LabelsOf(hm, peaks, h.maps[|peaks|]), units)
    ensures forall p: nat :: p < |units| ==> (units[p].area != 0 ==> units[p].weightTotal != 0)
  {
    PeaksHaveRoots(hm, peaks, tholds, h);
    forall p: nat | p < |units|
      ensures units[p].area != 0 <==> h.marks[p] != {}
      ensures units[p].peakIndices == if h.marks[p] != {} then [p] else []
      ensures units[p].area != 0 ==> units[p].weightTotal != 0
    {
      FloodedUnit(hm, peaks, h, p, units[p], edges[p], pss[p]);
    }
  }

  lemma FloodedUnit(hm: seq<int>, peaks: seq<Peak>, h: History, p: nat, u: Unit, e: EdgeInfo, ps: seq<Pixel>)
    requires OnCells(hm) && p < |peaks| && p < |h.cores| && p < |h.marks| && UnitOk(hm, peaks, h, p, u, e, ps)
    ensures u.area != 0 <==> h.marks[p] != {}
    ensures u.peakIndices == if h.marks[p] != {} then [p] else []
    ensures u.area != 0 ==> u.weightTotal != 0
  {
    if h.marks[p] != {} {
      SumsInBox(hm, u, e, ps, h.cores[p], h.marks[p]);
    }
  }

  function Finished(u: Unit): Unit { if HasZone(u) then Classified(u) else u }

  /** Units ready for the contacts: every flooded one lists all peaks of its zone, the others are empty. */
  ghost predicate Ready(labels: seq<int>, units: seq<Unit>) {
    && |units| == |labels| && Rooted(labels)
    && (forall p: nat {:trigger units[p]} :: p < |units| ==> (HasZone(units[p]) <==> IsRoot(labels, p)))
    && (forall p: nat {:trigger units[p]} :: p < |units| && IsRoot(labels, p) ==>
         units[p].peakIndices == Owned(labels, p, |labels|))
  }

  lemma ScannedAreReady(labels: seq<int>, units0: seq<Unit>, units: seq<Unit>)
    requires Unscanned(labels, units0) && ScannedUnits(labels, units0, units, |labels|)
    requires forall p: nat :: p < |units0| ==> (units0[p].area != 0 ==> units0[p].weightTotal != 0)
    ensures Ready(labels, units)
  {
    forall p: nat | p < |units|
      ensures HasZone(units[p]) <==> IsRoot(labels, p)
      ensures IsRoot(labels, p) ==> units[p].peakIndices == Owned(labels, p, |labels|)
    {
      assert units[p] == ScannedUnit(labels, units0[p], p, |labels|);
    }
  }

  /** The contacts of the next zone extend those of the zones before it. */
  lemma ZoneFollowsList(want: seq<Contact>, labels: seq<int>, p: nat, contacts: seq<Contact>, more: seq<Contact>)
    requires p < |labels| == |want| && IsRoot(labels, p)
    requires ContactsFollow(want, Roster(labels, p), contacts) && ContactsFollow(want, Owned(labels, p, |labels|), more)
    ensures ContactsFollow(want, Roster(labels, p + 1), contacts + more)
  {
    assert Roster(labels, p + 1) == Roster(labels, p) + Owned(labels, p, |labels|);
  }

  lemma ZoneSkipsList(want: seq<Contact>, labels: seq<int>, p: nat, contacts: seq<Contact>)
    requires p < |labels| == |want| && !IsRoot(labels, p) && ContactsFollow(want, Roster(labels, p), contacts)
    ensures ContactsFollow(want, Roster(labels, p + 1), contacts)
  {
    assert Roster(labels, p + 1) == Roster(labels, p);
  }

  /** Every peak a zone lists expects the contact the zone gives it. */
  lemma ListedPeaks(hm: seq<int>, peaks: seq<Peak>, labels: seq<int>, units: seq<Unit>, p: nat)
    requires OnCells(hm) && Ready(labels, units) && |labels| == |peaks| && p < |labels| && IsRoot(labels, p)
    ensures var indices := units[p].peakIndices;
      && indices == Owned(labels, p, |labels|) && |indices| > 0
      && forall k :: 0 <= k < |indices| ==> 0 <= indices[k] < |peaks| && labels[indices[k]] == p + 1
  {
    var indices := Owned(labels, p, |labels|);
    OwnedStarts(labels, p, |labels|);
    OwnedMeans(labels, p, |labels|);
    forall k | 0 <= k < |indices| ensures 0 <= indices[k] < |peaks| && labels[indices[k]] == p + 1 {
      var q := indices[k];
      assert q in indices;
    }
  }

  /** The contacts wanted for the peaks that `u` lists. */
  ghost predicate WantedBy(hm: seq<int>, peaks: seq<Peak>, want: seq<Contact>, u: Unit)
    requires OnCells(hm) && |want| == |peaks|
  {
    && u.weightTotal != 0 && |u.peakIndices| > 0
    && (forall k :: 0 <= k < |u.peakIndices| ==> 0 <= u.peakIndices[k] < |peaks|)
    && (forall k :: 0 <= k < |u.peakIndices| ==> want[u.peakIndices[k]] == ContactOf(hm, peaks[u.peakIndices[k]], u))
  }

  lemma UnitWants(hm: seq<int>, peaks: seq<Peak>, labels: seq<int>, units: seq<Unit>, want: seq<Contact>, p: nat)
    requires OnCells(hm) && Ready(labels, units) && |labels| == |peaks| && p < |labels| && HasZone(units[p])
    requires want == Expected(hm, peaks, labels, units, |peaks|)
    ensures units[p].peakIndices == Owned(labels, p, |labels|) && WantedBy(hm, peaks, want, units[p])
  {
    ListedPeaks(hm, peaks, labels, units, p);
    var indices := units[p].peakIndices;
    forall k | 0 <= k < |indices| ensures want[indices[k]] == ContactOf(hm, peaks[indices[k]], units[p]) {
      ExpectedAt(hm, peaks, labels, units, |peaks|, indices[k]);
    }
  }
}
