/** Frames at the edge of what the zones promise: a peak below the zone threshold, two peaks in one border zone,
    and the least signal that overflows a zone sum. */
module ZoneLimits {
  import opened EngineTypes
  import opened ZoneGrid
  import opened ZoneInfo
  import opened ZoneFlood
  import opened ZoneRun
  import opened ZoneContacts
  import opened ZonePeaks
  import opened Zones
  import opened ZoneHistories
  import opened Peaks
  import opened Extractor
  import FrontEnd
  import EdgeComp
  import Sorting

  /** A detection threshold of 100 and no filter but Z1. */
  const PLAIN := Config(100, 100, 100, false, false, true, false, false)

  // ----- what the detector finds -----

  lemma {:induction false} EntriesOfOne(table: seq<Peak>, i: int, n: nat)
    requires n <= |table| && 0 <= i < |table|
    ensures Entries(table, {i}, n) == if i < n then [table[i]] else []
  {
    if n > 0 { EntriesOfOne(table, i, n - 1); }
  }

  lemma {:induction false} EntriesOfTwo(table: seq<Peak>, i: int, j: int, n: nat)
    requires n <= |table| && 0 <= i < j < |table|
    ensures Entries(table, {i, j}, n) == (if i < n then [table[i]] else []) + (if j < n then [table[j]] else [])
  {
    if n > 0 { EntriesOfTwo(table, i, j, n - 1); }
  }

  lemma {:induction false} KeepAll(ps: seq<Peak>, test: Peak -> bool)
    requires forall k :: 0 <= k < |ps| ==> test(ps[k])
    ensures Keep(ps, test) == ps
  {
    if |ps| > 0 { KeepAll(ps[..|ps| - 1], test); }
  }

  /** Accepted peaks in order, none dropped and none filtered, are what the detector delivers. */
  lemma DetectedAsAccepted(hm: seq<int>, peaks: seq<Peak>)
    requires |hm| == CELLS && Accepted(PLAIN, hm) == peaks && |peaks| <= MAX_PEAKS && InOrder(peaks)
    requires forall k :: 0 <= k < |peaks| ==> peaks[k].z >= 100
    ensures Detected(PLAIN, hm, peaks, [], peaks)
  {
    DetectedPeaksOk(PLAIN, hm, peaks);
    KeepAll(peaks, (p: Peak) => p.z >= 100);
    assert multiset(peaks) + multiset([]) == multiset(peaks);
  }

  /** A single peak, at or above 100. */
  lemma OneDetected(hm: seq<int>, i: int) returns (pk: Peak)
    requires |hm| == CELLS && IsCell(i) && AcceptedCells(PLAIN, hm) == {i} && hm[i] >= 100
    ensures Detected(PLAIN, hm, [pk], [], [pk]) && OnGrid(pk.r, pk.c) && PeakCell(pk) == i && pk.z == hm[i]
  {
    pk := PeakAt(hm, i);
    EntriesOfOne(PeakTable(hm), i, CELLS);
    CellOfCoordinates(i);
    DetectedAsAccepted(hm, [pk]);
  }

  /** Two peaks, the second no weaker. */
  lemma TwoDetected(hm: seq<int>, i: int, j: int)
    requires |hm| == CELLS && 0 <= i < j < CELLS && AcceptedCells(PLAIN, hm) == {i, j} && 100 <= hm[i] <= hm[j]
    ensures var peaks := [PeakAt(hm, i), PeakAt(hm, j)]; Detected(PLAIN, hm, peaks, [], peaks)
    ensures PeakCell(PeakAt(hm, i)) == i && PeakCell(PeakAt(hm, j)) == j
  {
    EntriesOfTwo(PeakTable(hm), i, j, CELLS);
    CellOfCoordinates(i);
    CellOfCoordinates(j);
    DetectedAsAccepted(hm, [PeakAt(hm, i), PeakAt(hm, j)]);
  }

  /** The core of a lone flood at the common threshold. */
  lemma LoneCore(hm: seq<int>, pk: Peak, numer: int, h: History, j: int)
    requires OnGrid(pk.r, pk.c) && Standing(hm, [pk]) && pk.z >= 100 && TholdFits(numer, 100) && IsCell(j)
    requires FloodRun(hm, [pk], Tholds(numer, 100, [pk]), h, 1)
    ensures var t := CalcZoneThold(numer, 100, 100);
      j in h.cores[0] <==> if t <= pk.z then Linked(hm, t, PeakCell(pk), j) else j == PeakCell(pk)
  {
    var t, tholds := CalcZoneThold(numer, 100, 100), Tholds(numer, 100, [pk]);
    TholdIsExact(numer, 100, 100);
    DetectedAreSuited(numer, 100, hm, [pk]);
    assert FloodedAt(hm, [pk], tholds, h, 1, 0);
    assert h.cores[0] != {};
    ZoneIsComponent(hm, [pk], tholds, h, 1, 0, j);
  }

  /** Without weak positive cells a flood marks its core only. */
  lemma NoWeakMarks(hm: seq<int>, zones0: seq<int>, zones: seq<int>, zid: int, thold: int, seed: int, core: set<int>,
                    marked: set<int>)
    requires OnCells(hm) && OnCells(zones0) && OnCells(zones)
    requires Flooded(hm, zones0, zones, zid, thold, seed, core, marked)
    requires forall j :: IsCell(j) ==> hm[j] >= thold || hm[j] <= 0
    ensures marked == core
  {
    forall j ensures j in marked <==> j in core {
    }
  }

  // ----- a peak below the zone threshold -----

  /** A cell of 150 with one of 140 beside it. */
  const TOP: int := 1230

  ghost function WeakMap(): (hm: seq<int>)
    ensures |hm| == CELLS
  {
    seq(CELLS, i => if i == TOP then 150 else if i == TOP + 1 then 140 else 0)
  }

  lemma WeakAccepted()
    ensures AcceptedCells(PLAIN, WeakMap()) == {TOP}
  {
    var hm := WeakMap();
    assert Adjacent(TOP + 1, TOP) && !Beats(hm, TOP + 1, TOP);
    assert LocalMax(hm, TOP);
  }

  lemma WeakNeighbour()
    ensures Linked(WeakMap(), 100, TOP, TOP + 1)
  {
    JoinedSelf(Above(WeakMap(), 100), TOP);
    JoinedStep(Above(WeakMap(), 100), TOP, TOP, TOP + 1);
  }

  /** A lone flood from a peak below the zone threshold. */
  lemma WeakZone(hm: seq<int>, pk: Peak, numer: int, h: History)
    requires OnGrid(pk.r, pk.c) && Standing(hm, [pk]) && pk.z >= 100 && TholdFits(numer, 100)
    requires FloodRun(hm, [pk], Tholds(numer, 100, [pk]), h, 1) && pk.z < CalcZoneThold(numer, 100, 100)
    ensures h.cores[0] == {PeakCell(pk)}
  {
    assert FloodedAt(hm, [pk], Tholds(numer, 100, [pk]), h, 1, 0);
    forall j | j in h.cores[0] ensures j == PeakCell(pk) { LoneCore(hm, pk, numer, h, j); }
    LoneCore(hm, pk, numer, h, PeakCell(pk));
  }

  /** With a scale above one a detected peak can be below the zone threshold. Its zone is then its own cell, though
      it has a neighbour above the detection threshold. */
  lemma WeakPeak() returns (hm: seq<int>, pk: Peak)
    ensures OnGrid(pk.r, pk.c) && Detected(PLAIN, hm, [pk], [], [pk])
    ensures TholdFits(255, 100) && pk.z < CalcZoneThold(255, 100, 100)
    ensures exists j :: IsCell(j) && j != PeakCell(pk) && Linked(hm, 100, PeakCell(pk), j)
    ensures exists h :: FloodRun(hm, [pk], Tholds(255, 100, [pk]), h, 1)
    ensures forall h :: FloodRun(hm, [pk], Tholds(255, 100, [pk]), h, 1) ==> h.cores[0] == {PeakCell(pk)}
  {
    hm := WeakMap();
    WeakAccepted();
    pk := OneDetected(hm, TOP);
    WeakNeighbour();
    var some := RunExists(hm, [pk], Tholds(255, 100, [pk]), 1);
    forall h | FloodRun(hm, [pk], Tholds(255, 100, [pk]), h, 1) ensures h.cores[0] == {PeakCell(pk)} {
      WeakZone(hm, pk, 255, h);
    }
  }

  // ----- the least overflow -----

  /** Nine rows of signal in the last column: eight at the 16-bit maximum and one of 22224. */
  function HotSignal(row: int): int { if row < 8 then 0x7FFF else 22224 }

  ghost function HotMap(): (hm: seq<int>)
    ensures OnCells(hm)
  {
    seq(CELLS, i => if Col(i) == COL_MAX && Row(i) < 9 then HotSignal(Row(i)) else 0)
  }

  ghost function HotCells(n: nat): set<int>
    requires n <= 9
  {
    set r | 0 <= r < n :: Cell(r, COL_MAX)
  }

  ghost function HotPixels(n: nat): (ps: seq<Pixel>)
    requires n <= 9
    ensures |ps| == n
    decreases n, 0
  {
    if n == 0 then [] else HotPixels(n - 1) + [Pixel(Cell(n - 1, COL_MAX), HotSignal(n - 1), true)]
  }

  lemma {:induction false} HotListed(n: nat)
    requires n <= 9
    ensures Listed(HotMap(), HotPixels(n), HotCells(n), HotCells(n))
    decreases n, 0
  {
    if n > 0 {
      HotListed(n - 1);
      var ps, x := HotPixels(n), Cell(n - 1, COL_MAX);
      assert ps[..n - 1] == HotPixels(n - 1);
      assert HotCells(n) - {x} == HotCells(n - 1);
      assert x in HotCells(n);
    }
  }

  lemma {:induction false} HotColumn(n: nat)
    requires n <= 9
    ensures CoreSum(HotPixels(n), ByOne) == if n < 9 then 0x7FFF * n else 284360
    ensures CoreSum(HotPixels(n), ByCol) == COL_MAX * 128 * CoreSum(HotPixels(n), ByOne)
    decreases n, 0
  {
    if n > 0 {
      HotColumn(n - 1);
      HotPush(n - 1);
    }
  }

  lemma HotPush(n: nat)
    requires n < 9
    ensures CoreSum(HotPixels(n + 1), ByOne) == CoreSum(HotPixels(n), ByOne) + HotSignal(n)
    ensures CoreSum(HotPixels(n + 1), ByCol) == CoreSum(HotPixels(n), ByCol) + COL_MAX * 128 * HotSignal(n)
  {
    var p := Pixel(Cell(n, COL_MAX), HotSignal(n), true);
    CoreSumPush(HotPixels(n), p, ByOne, 1);
    CoreSumPush(HotPixels(n), p, ByCol, COL_MAX * 128);
  }

  lemma CoreSumPush(ps: seq<Pixel>, p: Pixel, w: Weight, f: int)
    requires p.core && f == Factor(w, p.cell)
    ensures CoreSum(ps + [p], w) == CoreSum(ps, w) + f * p.sig
  {
    assert (ps + [p])[..|ps|] == ps;
  }

  lemma HotAccepted()
    ensures AcceptedCells(PLAIN, HotMap()) == {COL_MAX}
  {
    var hm := HotMap();
    assert LocalMax(hm, COL_MAX);
    forall i | IsCell(i) && i != COL_MAX ensures !Accepts(PLAIN, hm, i) {
      if hm[i] >= 100 {
        assert Adjacent(i, i - COLS) && !Beats(hm, i, i - COLS);
      }
    }
  }

  lemma {:induction false} HotLinked(t: int, r: nat)
    requires r < 9 && 1 <= t <= 22224
    ensures Linked(HotMap(), t, COL_MAX, Cell(r, COL_MAX))
  {
    var open := Above(HotMap(), t);
    if r == 0 {
      JoinedSelf(open, COL_MAX);
    } else {
      HotLinked(t, r - 1);
      JoinedStep(open, COL_MAX, Cell(r - 1, COL_MAX), Cell(r, COL_MAX));
    }
  }

  /** The strong cells are those of the column, whatever the threshold. */
  lemma HotIsStrong(t: int, j: int)
    requires 1 <= t <= 22224 && IsCell(j)
    ensures HotMap()[j] >= t <==> j in HotCells(9)
    ensures HotMap()[j] >= t || HotMap()[j] <= 0
  {
    CellOfCoordinates(j);
    if Col(j) == COL_MAX && Row(j) < 9 { assert j == Cell(Row(j), COL_MAX); }
  }

  lemma HotComponent(t: int, j: int)
    requires 1 <= t <= 22224 && IsCell(j)
    ensures Linked(HotMap(), t, COL_MAX, j) <==> j in HotCells(9)
  {
    HotIsStrong(t, j);
    if j in HotCells(9) {
      var r: nat :| r < 9 && j == Cell(r, COL_MAX);
      HotLinked(t, r);
    }
  }

  /** The flood of the hot column marks it and nothing else. */
  lemma HotFlooded(hm: seq<int>, numer: int, pk: Peak, h: History)
    requires 0 <= numer < 256 && hm == HotMap() && OnGrid(pk.r, pk.c) && PeakCell(pk) == COL_MAX && pk.z == 0x7FFF
    requires Standing(hm, [pk]) && FloodRun(hm, [pk], Tholds(numer, 100, [pk]), h, 1)
    ensures h.cores[0] == h.marks[0] == HotCells(9)
  {
    var t := CalcZoneThold(numer, 100, 100);
    TholdIsExact(numer, 100, 100);
    assert 1 <= t <= 199;
    HotCore(hm, numer, t, pk, h);
    assert FloodedAt(hm, [pk], Tholds(numer, 100, [pk]), h, 1, 0);
    forall j | IsCell(j) ensures hm[j] >= t || hm[j] <= 0 { HotIsStrong(t, j); }
    NoWeakMarks(hm, h.maps[0], h.maps[1], 1, t, COL_MAX, h.cores[0], h.marks[0]);
  }

  lemma HotCore(hm: seq<int>, numer: int, t: int, pk: Peak, h: History)
    requires 0 <= numer < 256 && hm == HotMap() && OnGrid(pk.r, pk.c) && PeakCell(pk) == COL_MAX && pk.z == 0x7FFF
    requires t == CalcZoneThold(numer, 100, 100) && 1 <= t <= 199
    requires Standing(hm, [pk]) && FloodRun(hm, [pk], Tholds(numer, 100, [pk]), h, 1)
    ensures h.cores[0] == HotCells(9)
  {
    assert FloodedAt(hm, [pk], Tholds(numer, 100, [pk]), h, 1, 0);
    var core, hot := h.cores[0], HotCells(9);
    forall j ensures j in core <==> j in hot {
      if IsCell(j) {
        LoneCore(hm, pk, numer, h, j);
        HotComponent(t, j);
      }
    }
  }

  /** The flood of a single peak, with its pixels. */
  ghost predicate LoneFlood(hm: seq<int>, pk: Peak, numer: int, h: History, ps: seq<Pixel>) {
    FloodRun(hm, [pk], Tholds(numer, 100, [pk]), h, 1) && Listed(hm, ps, h.cores[0], h.marks[0])
  }

  lemma HotDetected() returns (hm: seq<int>, pk: Peak)
    ensures hm == HotMap() && OnGrid(pk.r, pk.c) && PeakCell(pk) == COL_MAX && pk.z == 0x7FFF
    ensures Detected(PLAIN, hm, [pk], [], [pk]) && forall i :: 0 <= i < CELLS ==> 0 <= hm[i] <= 0x7FFF
  {
    hm := HotMap();
    HotAccepted();
    HotRange();
    pk := OneDetected(hm, COL_MAX);
  }

  lemma HotRange()
    ensures HotMap()[COL_MAX] == 0x7FFF && forall i :: 0 <= i < CELLS ==> 0 <= HotMap()[i] <= 0x7FFF
  {
  }

  lemma LoneFloodExists(hm: seq<int>, pk: Peak, numer: int) returns (h: History, u: Unit, e: EdgeInfo, ps: seq<Pixel>)
    requires PeaksOk(hm, [pk]) && TholdFits(numer, 100)
    ensures LoneFlood(hm, pk, numer, h, ps) && UnitOk(hm, [pk], h, 0, u, e, ps)
  {
    var tholds := Tholds(numer, 100, [pk]);
    TholdIsExact(numer, 100, pk.z);
    h := RunExists(hm, [pk], tholds, 1);
    u, e, ps := UnitExists(hm, [pk], tholds, h, 1, 0);
    assert FloodedAt(hm, [pk], tholds, h, 1, 0);
    assert PeakCell([pk][0]) in h.marks[0];
  }

  /** The bound of `SumsFit` is exact, at every scale: a heat map of 16-bit signals whose one detected peak floods a
      zone of one unit more, and whose column sum does not fit. The contact of that zone is far off the panel. */
  lemma SumsOverflow() returns (hm: seq<int>, pk: Peak)
    ensures Detected(PLAIN, hm, [pk], [], [pk]) && forall i :: 0 <= i < CELLS ==> 0 <= hm[i] <= 0x7FFF
    ensures forall numer: int, h: History, ps: seq<Pixel> :: 0 <= numer < 256 && LoneFlood(hm, pk, numer, h, ps) ==>
              CoreSum(ps, ByOne) == FITTING + 1 && CoreSum(ps, ByCol) > INT_MAX
    ensures forall numer: int, h: History, u: Unit, ps: seq<Pixel> ::
              0 <= numer < 256 && LoneFlood(hm, pk, numer, h, ps) && Accumulates(u, ps) ==>
                u.weightTotal != 0 && SingleContact(u, pk.id).x == -14975.0 / 256.0
    ensures forall numer: int :: 0 <= numer < 256 ==> HasLoneFlood(hm, pk, numer)
  {
    hm, pk := HotDetected();
    forall numer: int, h: History, ps: seq<Pixel> | 0 <= numer < 256 && LoneFlood(hm, pk, numer, h, ps)
      ensures CoreSum(ps, ByOne) == FITTING + 1 && CoreSum(ps, ByCol) == COL_MAX * 128 * (FITTING + 1)
    {
      HotSums(hm, pk, numer, h, ps);
    }
    HotCentroid();
    forall numer: int | 0 <= numer < 256 ensures HasLoneFlood(hm, pk, numer) {
      var h, u, e, ps := LoneFloodExists(hm, pk, numer);
    }
  }

  ghost predicate HasLoneFlood(hm: seq<int>, pk: Peak, numer: int) {
    exists h: History, ps: seq<Pixel> :: LoneFlood(hm, pk, numer, h, ps)
  }

  /** The wrapped sum puts the contact fifty-eight cells left of the panel. */
  lemma HotCentroid()
    ensures Centroid(ToWord(COL_MAX * 128 * (FITTING + 1)), FITTING + 1) == -14975.0 / 256.0
  {
    assert ToWord(2147486720) == -2147480576;
    assert TruncDiv(-4294961152, 284360) == -15103;
  }

  lemma HotSums(hm: seq<int>, pk: Peak, numer: int, h: History, ps: seq<Pixel>)
    requires 0 <= numer < 256 && hm == HotMap() && OnGrid(pk.r, pk.c) && PeakCell(pk) == COL_MAX && pk.z == 0x7FFF
    requires Standing(hm, [pk]) && LoneFlood(hm, pk, numer, h, ps)
    ensures CoreSum(ps, ByOne) == FITTING + 1 && CoreSum(ps, ByCol) == COL_MAX * 128 * (FITTING + 1)
  {
    HotFlooded(hm, numer, pk, h);
    HotListed(9);
    HotColumn(9);
    SameSums(hm, ps, HotPixels(9), HotCells(9));
  }

  lemma SameSums(hm: seq<int>, ps: seq<Pixel>, qs: seq<Pixel>, core: set<int>)
    requires OnCells(hm) && Listed(hm, ps, core, core) && Listed(hm, qs, core, core)
    ensures CoreSum(ps, ByOne) == CoreSum(qs, ByOne) && CoreSum(ps, ByCol) == CoreSum(qs, ByCol)
  {
    SumsOverCore(hm, ps, core, core, ByOne);
    SumsOverCore(hm, qs, core, core, ByOne);
    SumsOverCore(hm, ps, core, core, ByCol);
    SumsOverCore(hm, qs, core, core, ByCol);
  }

  /** A flooded zone of a 16-bit heat map, with its sums. */
  ghost predicate IsZone(hm: seq<int>, u: Unit, e: EdgeInfo, ps: seq<Pixel>, core: set<int>, marked: set<int>) {
    && OnCells(hm) && (forall i :: 0 <= i < CELLS ==> IsShort(hm[i]))
    && Counted(hm, ps, core, marked, u, e) && core <= marked
    && core != {} && forall j :: j in core ==> IsCell(j) && hm[j] > 0
  }

  lemma ZoneOnCentres(hm: seq<int>, u: Unit, e: EdgeInfo, ps: seq<Pixel>, core: set<int>, marked: set<int>)
    requires IsZone(hm, u, e, ps, core, marked) && u.signalSum <= FITTING
    ensures u.weightTotal != 0 && FrontEnd.OnCentres(SingleContact(u, 0))
  {
    SumsInBox(hm, u, e, ps, core, marked);
    FittingSumsHold(ps);
    CentroidInBox(hm, u, e, ps, core, marked, 0);
    EdgeComp.CentroidsAreWhole(u.weightedColSum, u.weightTotal);
    EdgeComp.CentroidsAreWhole(u.weightedRowSum, u.weightTotal);
  }

  lemma HotZone() returns (hm: seq<int>, u: Unit, e: EdgeInfo, ps: seq<Pixel>, core: set<int>)
    ensures IsZone(hm, u, e, ps, core, core) && u.signalSum == FITTING + 1
    ensures u.weightTotal != 0 && SingleContact(u, 0).x == -14975.0 / 256.0
  {
    hm, core, ps := HotMap(), HotCells(9), HotPixels(9);
    HotListed(9);
    HotColumn(9);
    HotRange();
    HotCentroid();
    u, e := SumsExist(ps, core, NO_UNIT);
    forall j | j in core ensures IsCell(j) && hm[j] > 0 { HotIsStrong(1, j); }
    assert Cell(0, COL_MAX) in core;
  }

  /** All zones of a signal of at most `limit` have their contact on the grid exactly when `limit` is at most 284359. */
  lemma OnCentresIff(limit: int)
    ensures (forall hm, u, e, ps, core, marked :: IsZone(hm, u, e, ps, core, marked) && u.signalSum <= limit ==>
               u.weightTotal != 0 && FrontEnd.OnCentres(SingleContact(u, 0)))
       <==> limit <= FITTING
  {
    if limit <= FITTING {
      forall hm, u, e, ps, core, marked | IsZone(hm, u, e, ps, core, marked) && u.signalSum <= limit
        ensures u.weightTotal != 0 && FrontEnd.OnCentres(SingleContact(u, 0))
      {
        ZoneOnCentres(hm, u, e, ps, core, marked);
      }
    } else {
      var hm, u, e, ps, core := HotZone();
      assert !FrontEnd.OnCentres(SingleContact(u, 0));
    }
  }

  // ----- two peaks of one border zone -----

  ghost function BorderMap(): (hm: seq<int>)
    ensures |hm| == CELLS
  {
    seq(CELLS, i => if i == 10 || i == 12 then 300 else if i == 11 then 200 else 0)
  }

  lemma BorderAccepted()
    ensures AcceptedCells(PLAIN, BorderMap()) == {10, 12}
  {
    var hm := BorderMap();
    assert Adjacent(11, 10) && !Beats(hm, 11, 10);
    assert LocalMax(hm, 10) && LocalMax(hm, 12);
  }

  lemma BorderDetected()
    ensures var hm := BorderMap();
      var peaks := [PeakAt(hm, 10), PeakAt(hm, 12)];
      Detected(PLAIN, hm, peaks, [], peaks) && PeakCell(peaks[0]) == 10 && PeakCell(peaks[1]) == 12
  {
    var hm := BorderMap();
    BorderAccepted();
    TwoDetected(hm, 10, 12);
  }

  lemma BorderLinked(t: int)
    requires 1 <= t <= 200
    ensures Linked(BorderMap(), t, 10, 12)
  {
    var open := Above(BorderMap(), t);
    JoinedSelf(open, 10);
    JoinedStep(open, 10, 10, 11);
    JoinedStep(open, 10, 11, 12);
  }

  /** The floods of two peaks, with their units and border sums. */
  ghost predicate PairFlood(hm: seq<int>, peaks: seq<Peak>, h: History, flooded: seq<Unit>, edges: seq<EdgeInfo>,
                            pss: seq<seq<Pixel>>)
  {
    && |peaks| == 2 && FloodRun(hm, peaks, Tholds(64, 100, peaks), h, 2)
    && UnitsOk(hm, peaks, h, 2, flooded, edges, pss)
  }

  lemma PairFloodExists(hm: seq<int>, peaks: seq<Peak>)
    requires PeaksOk(hm, peaks) && |peaks| == 2
    ensures exists h: History, flooded: seq<Unit>, edges: seq<EdgeInfo>, pss: seq<seq<Pixel>> ::
              PairFlood(hm, peaks, h, flooded, edges, pss)
  {
    var tholds := Tholds(64, 100, peaks);
    forall p | 0 <= p < |peaks| ensures tholds[p] >= 1 { TholdIsExact(64, 100, peaks[p].z); }
    var h, flooded, edges, pss := HistoryExists(hm, peaks, tholds);
    assert PairFlood(hm, peaks, h, flooded, edges, pss);
  }

  /** Two strong detected peaks, linked, the first on the border. */
  ghost predicate StrongPair(hm: seq<int>, peaks: seq<Peak>) {
    && OnCells(hm) && |peaks| == 2 && OnGrid(peaks[0].r, peaks[0].c) && OnGrid(peaks[1].r, peaks[1].c)
    && peaks[0].z >= 100 && peaks[1].z >= 100 && OnBorder(PeakCell(peaks[0]))
    && Linked(hm, CalcZoneThold(64, 100, 100), PeakCell(peaks[0]), PeakCell(peaks[1]))
  }

  lemma BorderScene() returns (hm: seq<int>, peaks: seq<Peak>)
    ensures Detected(PLAIN, hm, peaks, [], peaks) && StrongPair(hm, peaks)
  {
    hm := BorderMap();
    peaks := [PeakAt(hm, 10), PeakAt(hm, 12)];
    BorderDetected();
    BorderStrong(peaks[0], peaks[1]);
  }

  lemma BorderStrong(a: Peak, b: Peak)
    requires OnGrid(a.r, a.c) && OnGrid(b.r, b.c) && PeakCell(a) == 10 && PeakCell(b) == 12
    requires a.z == b.z == 300
    ensures StrongPair(BorderMap(), [a, b])
  {
    BorderLinked(CalcZoneThold(64, 100, 100));
  }

  /** Two peaks of one zone on the first row: the contact of the second stands at an index without border sums, so it
      is not compensated although its zone reaches the border. */
  lemma BorderPair() returns (hm: seq<int>, peaks: seq<Peak>)
    ensures |peaks| == 2 && Detected(PLAIN, hm, peaks, [], peaks)
    ensures forall h: History, flooded: seq<Unit>, edges: seq<EdgeInfo>, pss: seq<seq<Pixel>> ::
              PairFlood(hm, peaks, h, flooded, edges, pss) ==>
                LabelsOf(hm, peaks, h.maps[2]) == [1, 1] && edges[0].touchesBorder && edges[1] == NO_EDGE
    ensures exists h: History, flooded: seq<Unit>, edges: seq<EdgeInfo>, pss: seq<seq<Pixel>> ::
              PairFlood(hm, peaks, h, flooded, edges, pss)
  {
    hm, peaks := BorderScene();
    PairFloodExists(hm, peaks);
    forall h: History, flooded: seq<Unit>, edges: seq<EdgeInfo>, pss: seq<seq<Pixel>> |
      PairFlood(hm, peaks, h, flooded, edges, pss)
      ensures LabelsOf(hm, peaks, h.maps[2]) == [1, 1] && edges[0].touchesBorder && edges[1] == NO_EDGE
    {
      BorderFlooded(hm, peaks, h, flooded, edges, pss);
    }
  }

  lemma BorderFlooded(hm: seq<int>, peaks: seq<Peak>, h: History, flooded: seq<Unit>, edges: seq<EdgeInfo>,
                      pss: seq<seq<Pixel>>)
    requires PairFlood(hm, peaks, h, flooded, edges, pss) && Standing(hm, peaks) && StrongPair(hm, peaks)
    ensures LabelsOf(hm, peaks, h.maps[2]) == [1, 1] && edges[0].touchesBorder && edges[1] == NO_EDGE
  {
    PairShares(hm, peaks, h, flooded, edges, pss);
    PairTouches(hm, peaks, h, flooded, edges, pss);
  }

  /** Two linked peaks: the second falls to the zone of the first. */
  lemma PairShares(hm: seq<int>, peaks: seq<Peak>, h: History, flooded: seq<Unit>, edges: seq<EdgeInfo>,
                   pss: seq<seq<Pixel>>)
    requires PairFlood(hm, peaks, h, flooded, edges, pss) && Standing(hm, peaks)
    requires peaks[0].z >= 100 && peaks[1].z >= 100
    requires Linked(hm, CalcZoneThold(64, 100, 100), PeakCell(peaks[0]), PeakCell(peaks[1]))
    ensures LabelsOf(hm, peaks, h.maps[2]) == [1, 1]
  {
    var labels := LabelsOf(hm, peaks, h.maps[2]);
    ZonesAtOneThold(64, 100, hm, peaks, h, labels);
    PeaksHaveRoots(hm, peaks, Tholds(64, 100, peaks), h);
    assert labels[0] == labels[1] == 1;
  }

  /** The first of them is on the border, and the second has no border sums. */
  lemma PairTouches(hm: seq<int>, peaks: seq<Peak>, h: History, flooded: seq<Unit>, edges: seq<EdgeInfo>,
                    pss: seq<seq<Pixel>>)
    requires PairFlood(hm, peaks, h, flooded, edges, pss) && LabelsOf(hm, peaks, h.maps[2]) == [1, 1]
    requires OnBorder(PeakCell(peaks[0]))
    ensures edges[0].touchesBorder && edges[1] == NO_EDGE
  {
    var tholds := Tholds(64, 100, peaks);
    FrontEnd.AbsorbedHasNone(hm, peaks, tholds, h, flooded, edges, pss, 1);
    assert FloodedAt(hm, peaks, tholds, h, 2, 0);
    assert UnitOk(hm, peaks, h, 0, flooded[0], edges[0], pss[0]);
    assert PeakCell(peaks[0]) in h.cores[0];
  }
}
