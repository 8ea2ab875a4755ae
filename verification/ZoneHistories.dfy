/** Every list of peaks has a flood history, with its pixels, units and border sums. */
module ZoneHistories {
  import opened EngineTypes
  import opened ZoneGrid
  import opened ZoneInfo
  import opened ZoneFlood
  import opened ZoneRun
  import opened ZoneContacts
  import opened Zones

  lemma FloodExists(hm: seq<int>, zones0: seq<int>, zid: int, thold: int, seed: int)
    returns (zones: seq<int>, core: set<int>, mark: set<int>)
    requires OnCells(hm) && OnCells(zones0) && IsCell(seed)
    ensures OnCells(zones) && Flooded(hm, zones0, zones, zid, thold, seed, core, mark) && seed in core
  {
    var open := Free(hm, zones0, thold);
    JoinedSelf(open, seed);
    core := set j | 0 <= j < CELLS && Joined(open, seed, j);
    mark := set j | 0 <= j < CELLS && (j in core || (zones0[j] == 0 && hm[j] < thold && Beside(hm, core, j)));
    zones := seq(CELLS, j requires 0 <= j < CELLS => if j in mark then zid else zones0[j]);
  }

  lemma {:induction false} RunExists(hm: seq<int>, peaks: seq<Peak>, tholds: seq<int>, n: nat) returns (h: History)
    requires PeaksOk(hm, peaks) && n <= |peaks| == |tholds|
    ensures FloodRun(hm, peaks, tholds, h, n)
  {
    if n == 0 {
      h := History([seq(CELLS, _ => 0)], [], []);
    } else {
      h := RunExists(hm, peaks, tholds, n - 1);
      h := NextFlood(hm, peaks, tholds, h, n - 1);
    }
  }

  lemma NextFlood(hm: seq<int>, peaks: seq<Peak>, tholds: seq<int>, h: History, n: nat) returns (h': History)
    requires FloodRun(hm, peaks, tholds, h, n) && n < |peaks|
    ensures FloodRun(hm, peaks, tholds, h', n + 1)
  {
    var cell := PeakCell(peaks[n]);
    var zones, core: set<int>, mark: set<int> := h.maps[n], {}, {};
    if h.maps[n][cell] == 0 {
      zones, core, mark := FloodExists(hm, h.maps[n], n + 1, tholds[n], cell);
    }
    ExtendRun(hm, peaks, tholds, h, n, zones, core, mark);
    h' := Extended(h, zones, core, mark);
  }

  /** The marked cells in some order. */
  lemma {:induction false} ListExists(hm: seq<int>, core: set<int>, marked: set<int>) returns (ps: seq<Pixel>)
    requires OnCells(hm) && core <= marked && forall j :: j in marked ==> IsCell(j)
    ensures Listed(hm, ps, core, marked)
    decreases |marked|
  {
    if marked == {} {
      ps := [];
    } else {
      var j := Pick(marked);
      var rest := ListExists(hm, core - {j}, marked - {j});
      ps := rest + [Pixel(j, hm[j], j in core)];
      assert ps[..|ps| - 1] == rest;
    }
  }

  /** Unit and border sums for a list of pixels. */
  lemma SumsExist(ps: seq<Pixel>, core: set<int>, header: Unit) returns (u: Unit, e: EdgeInfo)
    ensures Accumulates(u, ps) && Describes(e, ps) && SameHeader(u, header)
    ensures e.touchesBorder <==> exists c :: c in core && OnBorder(c)
    ensures e.nearBorder <==> exists c :: c in core && NearBorder(c)
  {
    u := header.(signalSum := CoreSum(ps, ByOne), weightTotal := CoreSum(ps, ByOne),
                 weightedColSum := ToWord(CoreSum(ps, ByCol)), weightedRowSum := ToWord(CoreSum(ps, ByRow)),
                 area := |CoreCells(ps)|, edgeArea := EdgeCount(ps), edgeSignalSum := EdgeSum(ps));
    e := EdgeInfo(BandSum(ps, OuterCol), BandSum(ps, InnerCol), BandSum(ps, OuterRow), BandSum(ps, InnerRow),
                  BandMax(ps, OuterCol), BandMax(ps, InnerCol), BandMax(ps, OuterRow), BandMax(ps, InnerRow),
                  Low(CoreCells(ps), Across), High(CoreCells(ps), Across),
                  Low(CoreCells(ps), Down), High(CoreCells(ps), Down),
                  exists c :: c in core && OnBorder(c), exists c :: c in core && NearBorder(c));
  }

  lemma UnitExists(hm: seq<int>, peaks: seq<Peak>, tholds: seq<int>, h: History, n: nat, p: nat)
    returns (u: Unit, e: EdgeInfo, ps: seq<Pixel>)
    requires FloodRun(hm, peaks, tholds, h, n) && p < n && tholds[p] >= 1
    ensures UnitOk(hm, peaks, h, p, u, e, ps)
  {
    u, e, ps := NO_UNIT, NO_EDGE, [];
    if h.marks[p] != {} {
      assert FloodedAt(hm, peaks, tholds, h, n, p);
      var cell, core, mark := PeakCell(peaks[p]), h.cores[p], h.marks[p];
      assert h.maps[p][cell] == 0;
      forall j | j in core ensures j in mark {
      }
      forall j | j in core ensures IsCell(j) && hm[j] > 0 { JoinedEnds(Free(hm, h.maps[p], tholds[p]), cell, j); }
      ps := ListExists(hm, core, mark);
      u, e := SumsExist(ps, core, NewUnit(peaks[p], p));
    }
  }

  /** Every list of peaks with thresholds of at least one has a flood history with sound units. */
  lemma HistoryExists(hm: seq<int>, peaks: seq<Peak>, tholds: seq<int>)
    returns (h: History, units: seq<Unit>, edges: seq<EdgeInfo>, pss: seq<seq<Pixel>>)
    requires PeaksOk(hm, peaks) && |tholds| == |peaks| && forall p :: 0 <= p < |peaks| ==> tholds[p] >= 1
    ensures FloodRun(hm, peaks, tholds, h, |peaks|) && UnitsOk(hm, peaks, h, |peaks|, units, edges, pss)
  {
    h := RunExists(hm, peaks, tholds, |peaks|);
    units, edges, pss := [], [], [];
    for p := 0 to |peaks|
      invariant |units| == |edges| == |pss| == p
      invariant forall k: nat {:trigger UnitOk(hm, peaks, h, k, units[k], edges[k], pss[k])} :: k < p ==>
                  UnitOk(hm, peaks, h, k, units[k], edges[k], pss[k])
    {
      var u, e, ps := UnitExists(hm, peaks, tholds, h, |peaks|, p);
      var us, es, pp := units + [u], edges + [e], pss + [ps];
      forall k: nat | k < p + 1 ensures UnitOk(hm, peaks, h, k, us[k], es[k], pp[k]) {
        if k < p { assert UnitOk(hm, peaks, h, k, units[k], edges[k], pss[k]); }
      }
      units, edges, pss := us, es, pp;
    }
  }
}
