/** All floods of a frame, peak after peak: the zones are the connected components that hold a peak. */
module ZoneRun {
  import opened ZoneGrid
  import opened ZoneFlood

  /** A peak as the detector hands it over. */
  datatype Peak = Peak(r: int, c: int, z: int, neighborSignalSum: int, id: int, tzAge: int)

  const MAX_PEAKS: nat := 20

  function PeakCell(p: Peak): (i: int)
    requires OnGrid(p.r, p.c)
    ensures IsCell(i) && Row(i) == p.r && Col(i) == p.c
  {
    Cell(p.r, p.c)
  }

  /** Up to twenty distinct peak cells of positive signal, as read from the heat map. */
  ghost predicate PeaksOk(hm: seq<int>, peaks: seq<Peak>) {
    && OnCells(hm) && |peaks| <= MAX_PEAKS
    && (forall p :: 0 <= p < |peaks| ==>
          OnGrid(peaks[p].r, peaks[p].c) && hm[PeakCell(peaks[p])] == peaks[p].z && peaks[p].z > 0)
    && (forall p, q :: 0 <= p < q < |peaks| ==> PeakCell(peaks[p]) != PeakCell(peaks[q]))
  }

  /** The history of the zone map: `maps[p]` before peak `p`, with the sets each flood marked. */
  datatype History = History(maps: seq<seq<int>>, cores: seq<set<int>>, marks: seq<set<int>>)

  ghost predicate HistorySized(hm: seq<int>, peaks: seq<Peak>, tholds: seq<int>, h: History, n: nat) {
    && PeaksOk(hm, peaks) && n <= |peaks| == |tholds|
    && |h.maps| == n + 1 && |h.cores| == n && |h.marks| == n
    && forall p :: 0 <= p <= n ==> OnCells(h.maps[p])
  }

  /** Peak `p`: nothing to do when its cell is already marked, a flood of zone `p + 1` otherwise. */
  ghost predicate FloodedAt(hm: seq<int>, peaks: seq<Peak>, tholds: seq<int>, h: History, n: nat, p: nat)
    requires HistorySized(hm, peaks, tholds, h, n) && p < n
  {
    var cell := PeakCell(peaks[p]);
    if h.maps[p][cell] != 0 then
      h.maps[p + 1] == h.maps[p] && h.cores[p] == {} && h.marks[p] == {}
    else
      && cell in h.cores[p]
      && Flooded(hm, h.maps[p], h.maps[p + 1], p + 1, tholds[p], cell, h.cores[p], h.marks[p])
  }

  ghost predicate FloodRun(hm: seq<int>, peaks: seq<Peak>, tholds: seq<int>, h: History, n: nat) {
    && HistorySized(hm, peaks, tholds, h, n)
    && (forall j :: 0 <= j < CELLS ==> h.maps[0][j] == 0)
    && (forall p: nat {:trigger FloodedAt(hm, peaks, tholds, h, n, p)} :: p < n ==>
         FloodedAt(hm, peaks, tholds, h, n, p))
  }

  /** Labels up to `p`, each on exactly its flood's marks. */
  ghost predicate MarksShown(zones: seq<int>, marks: seq<set<int>>, p: nat)
    requires OnCells(zones) && p <= |marks|
  {
    && (forall j :: 0 <= j < CELLS ==> 0 <= zones[j] <= p)
    && (forall j, q :: 0 <= j < CELLS && 0 <= q < p ==> (zones[j] == q + 1 <==> j in marks[q]))
  }

  /** Every peak's cell is labelled: with its own label if it was flooded, with an earlier one if not. */
  ghost predicate PeaksShown(zones: seq<int>, peaks: seq<Peak>, marks: seq<set<int>>, p: nat)
    requires OnCells(zones) && p <= |marks| && p <= |peaks|
    requires forall q :: 0 <= q < |peaks| ==> OnGrid(peaks[q].r, peaks[q].c)
  {
    && (forall q :: 0 <= q < p ==> zones[PeakCell(peaks[q])] != 0)
    && (forall q :: 0 <= q < p && marks[q] != {} ==> zones[PeakCell(peaks[q])] == q + 1)
    && (forall q :: 0 <= q < p && marks[q] == {} ==> zones[PeakCell(peaks[q])] <= q)
  }

  /** What `p` peaks leave on the map. */
  ghost predicate LabelsOk(hm: seq<int>, peaks: seq<Peak>, tholds: seq<int>, h: History, n: nat, p: nat)
    requires HistorySized(hm, peaks, tholds, h, n) && p <= n
  {
    MarksShown(h.maps[p], h.marks, p) && PeaksShown(h.maps[p], peaks, h.marks, p)
  }

  /** A flood marks free cells only. */
  lemma MarksWereFree(hm: seq<int>, zones0: seq<int>, zones: seq<int>, zid: int, thold: int, seed: int, core: set<int>,
                      mark: set<int>)
    requires OnCells(hm) && OnCells(zones0) && OnCells(zones) && IsCell(seed) && zones0[seed] == 0
    requires Flooded(hm, zones0, zones, zid, thold, seed, core, mark)
    ensures forall j :: j in mark ==> IsCell(j) && zones0[j] == 0
    ensures forall j :: 0 <= j < CELLS ==> zones[j] == if j in mark then zid else zones0[j]
  {
  }

  lemma LabelOwner(zones: seq<int>, marks: seq<set<int>>, p: nat, j: int)
    requires OnCells(zones) && p <= |marks| && MarksShown(zones, marks, p) && IsCell(j)
    ensures zones[j] == 0 || exists q: nat :: q < p && j in marks[q]
  {
    if zones[j] != 0 { assert j in marks[zones[j] - 1]; }
  }

  lemma MarksGrow(zones0: seq<int>, zones: seq<int>, marks: seq<set<int>>, p: nat)
    requires OnCells(zones0) && OnCells(zones) && p < |marks| && MarksShown(zones0, marks, p)
    requires forall j :: j in marks[p] ==> IsCell(j) && zones0[j] == 0
    requires forall j :: 0 <= j < CELLS ==> zones[j] == if j in marks[p] then p + 1 else zones0[j]
    ensures MarksShown(zones, marks, p + 1)
  {
  }

  lemma PeaksGrow(zones0: seq<int>, zones: seq<int>, peaks: seq<Peak>, marks: seq<set<int>>, p: nat)
    requires OnCells(zones0) && OnCells(zones) && p < |marks| && p < |peaks|
    requires forall q :: 0 <= q < |peaks| ==> OnGrid(peaks[q].r, peaks[q].c)
    requires PeaksShown(zones0, peaks, marks, p) && PeakCell(peaks[p]) in marks[p]
    requires forall j :: j in marks[p] ==> IsCell(j) && zones0[j] == 0
    requires forall j :: 0 <= j < CELLS ==> zones[j] == if j in marks[p] then p + 1 else zones0[j]
    ensures PeaksShown(zones, peaks, marks, p + 1)
  {
  }

  /** A skipped peak changes nothing. */
  lemma LabelsStay(hm: seq<int>, peaks: seq<Peak>, tholds: seq<int>, h: History, n: nat, p: nat)
    requires HistorySized(hm, peaks, tholds, h, n) && p < n
    requires LabelsOk(hm, peaks, tholds, h, n, p) && FloodedAt(hm, peaks, tholds, h, n, p)
    requires h.maps[p][PeakCell(peaks[p])] != 0
    ensures LabelsOk(hm, peaks, tholds, h, n, p + 1)
  {
  }

  /** A flood labels exactly its marks, its own peak's cell among them. */
  lemma LabelsGrow(hm: seq<int>, peaks: seq<Peak>, tholds: seq<int>, h: History, n: nat, p: nat)
    requires HistorySized(hm, peaks, tholds, h, n) && p < n
    requires LabelsOk(hm, peaks, tholds, h, n, p) && FloodedAt(hm, peaks, tholds, h, n, p)
    requires h.maps[p][PeakCell(peaks[p])] == 0
    ensures LabelsOk(hm, peaks, tholds, h, n, p + 1)
  {
    var cell := PeakCell(peaks[p]);
    assert cell in h.marks[p];
    MarksWereFree(hm, h.maps[p], h.maps[p + 1], p + 1, tholds[p], cell, h.cores[p], h.marks[p]);
    MarksGrow(h.maps[p], h.maps[p + 1], h.marks, p);
    PeaksGrow(h.maps[p], h.maps[p + 1], peaks, h.marks, p);
  }

  lemma LabelStep(hm: seq<int>, peaks: seq<Peak>, tholds: seq<int>, h: History, n: nat, p: nat)
    requires HistorySized(hm, peaks, tholds, h, n) && p < n
    requires LabelsOk(hm, peaks, tholds, h, n, p) && FloodedAt(hm, peaks, tholds, h, n, p)
    ensures LabelsOk(hm, peaks, tholds, h, n, p + 1)
  {
    if h.maps[p][PeakCell(peaks[p])] == 0 {
      LabelsGrow(hm, peaks, tholds, h, n, p);
    } else {
      LabelsStay(hm, peaks, tholds, h, n, p);
    }
  }

  lemma {:induction false} Labelled(hm: seq<int>, peaks: seq<Peak>, tholds: seq<int>, h: History, n: nat, p: nat)
    requires FloodRun(hm, peaks, tholds, h, n) && p <= n
    ensures LabelsOk(hm, peaks, tholds, h, n, p)
  {
    for k := 0 to p
      invariant LabelsOk(hm, peaks, tholds, h, n, k)
    {
      assert FloodedAt(hm, peaks, tholds, h, n, k);
      LabelStep(hm, peaks, tholds, h, n, k);
    }
  }

  // ----- components -----

  ghost function Above(hm: seq<int>, t: int): set<int>
    requires OnCells(hm)
  {
    set i | 0 <= i < CELLS && hm[i] >= t
  }

  /** A path of cells at or above `t` leads from `a` to `b`. */
  ghost predicate Linked(hm: seq<int>, t: int, a: int, b: int)
    requires OnCells(hm)
  {
    a in Above(hm, t) && b in Above(hm, t) && Joined(Above(hm, t), a, b)
  }

  lemma LinkedBack(hm: seq<int>, t: int, a: int, b: int)
    requires OnCells(hm) && Linked(hm, t, a, b)
    ensures Linked(hm, t, b, a)
  {
    var path :| IsPath(Above(hm, t), path) && path[0] == a && path[|path| - 1] == b;
    PathBack(Above(hm, t), path);
  }

  lemma LinkedTrans(hm: seq<int>, t: int, a: int, b: int, c: int)
    requires OnCells(hm) && Linked(hm, t, a, b) && Linked(hm, t, b, c)
    ensures Linked(hm, t, a, c)
  {
    var path :| IsPath(Above(hm, t), path) && path[0] == b && path[|path| - 1] == c;
    JoinedTrans(Above(hm, t), a, b, path);
  }

  /** A peak no neighbour exceeds, and next to no other peak. */
  ghost predicate Alone(hm: seq<int>, peaks: seq<Peak>, p: nat)
    requires PeaksOk(hm, peaks) && p < |peaks|
  {
    && (forall j :: IsCell(j) && Adjacent(PeakCell(peaks[p]), j) ==> hm[j] <= peaks[p].z)
    && (forall q :: 0 <= q < |peaks| ==> !Adjacent(PeakCell(peaks[p]), PeakCell(peaks[q])))
  }

  /** Peaks as the detector delivers them: every one stands alone. */
  ghost predicate Standing(hm: seq<int>, peaks: seq<Peak>) {
    PeaksOk(hm, peaks) && forall p: nat {:trigger Alone(hm, peaks, p)} :: p < |peaks| ==> Alone(hm, peaks, p)
  }

  /** The zone thresholds never fall from one peak to the next, and a peak below its own stands alone. */
  ghost predicate Suited(hm: seq<int>, peaks: seq<Peak>, tholds: seq<int>) {
    && PeaksOk(hm, peaks) && |tholds| == |peaks|
    && (forall p :: 0 <= p < |peaks| ==> tholds[p] >= 1)
    && (forall p, q :: 0 <= p <= q < |peaks| ==> tholds[p] <= tholds[q])
    && (forall p: nat {:trigger Alone(hm, peaks, p)} :: p < |peaks| ==> tholds[p] <= peaks[p].z || Alone(hm, peaks, p))
  }

  /** All peaks have one zone threshold; a peak below it stands alone. */
  ghost predicate CommonThold(hm: seq<int>, peaks: seq<Peak>, tholds: seq<int>, t: int) {
    && PeaksOk(hm, peaks) && |tholds| == |peaks| && t >= 1
    && (forall p :: 0 <= p < |peaks| ==> tholds[p] == t)
    && (forall p: nat {:trigger Alone(hm, peaks, p)} :: p < |peaks| ==> t <= peaks[p].z || Alone(hm, peaks, p))
  }

  lemma CommonIsSuited(hm: seq<int>, peaks: seq<Peak>, tholds: seq<int>, t: int)
    requires CommonThold(hm, peaks, tholds, t)
    ensures Suited(hm, peaks, tholds)
  {
    forall p: nat | p < |peaks| ensures tholds[p] <= peaks[p].z || Alone(hm, peaks, p) {
    }
  }

  /** A path at a level is a path at every lower one. */
  lemma LinkedLower(hm: seq<int>, s: int, t: int, a: int, b: int)
    requires OnCells(hm) && s <= t && Linked(hm, t, a, b)
    ensures Linked(hm, s, a, b)
  {
    var path :| IsPath(Above(hm, t), path) && path[0] == a && path[|path| - 1] == b;
    assert IsPath(Above(hm, s), path);
  }

  /** What is linked to `a` and to `b`, to `b` at the higher level, links them at the lower. */
  lemma LinkedThrough(hm: seq<int>, s: int, t: int, a: int, b: int, x: int)
    requires OnCells(hm) && s <= t && Linked(hm, s, a, x) && Linked(hm, t, b, x)
    ensures Linked(hm, s, a, b)
  {
    LinkedLower(hm, s, t, b, x);
    LinkedBack(hm, s, b, x);
    LinkedTrans(hm, s, a, x, b);
  }

  /** After `p` peaks every cell linked to one of them at its threshold is marked, and a strong cell under a label is
      linked to that label's peak. */
  ghost predicate Components(hm: seq<int>, peaks: seq<Peak>, tholds: seq<int>, h: History, n: nat, p: nat)
    requires HistorySized(hm, peaks, tholds, h, n) && p <= n
  {
    ComponentsOn(hm, peaks, tholds, h.maps[p], p)
  }

  ghost predicate ComponentsOn(hm: seq<int>, peaks: seq<Peak>, tholds: seq<int>, zones: seq<int>, p: nat)
    requires PeaksOk(hm, peaks) && |tholds| == |peaks| && OnCells(zones) && p <= |peaks|
  {
    && (forall j, q :: 0 <= j < CELLS && 0 <= q < p && Linked(hm, tholds[q], PeakCell(peaks[q]), j) ==> zones[j] != 0)
    && (forall j, q :: 0 <= j < CELLS && 0 <= q < p && hm[j] >= tholds[q] && zones[j] == q + 1 ==>
         Linked(hm, tholds[q], PeakCell(peaks[q]), j))
  }

  /** The owner of a marked cell linked to an unmarked peak would be linked to that peak. */
  lemma OwnerWouldReach(hm: seq<int>, peaks: seq<Peak>, tholds: seq<int>, zones: seq<int>, p: nat, x: int)
    requires Suited(hm, peaks, tholds) && OnCells(zones) && p < |peaks| && ComponentsOn(hm, peaks, tholds, zones, p)
    requires (forall j :: 0 <= j < CELLS ==> 0 <= zones[j] <= p) && zones[PeakCell(peaks[p])] == 0
    requires Linked(hm, tholds[p], PeakCell(peaks[p]), x)
    ensures zones[x] == 0
  {
    if zones[x] != 0 {
      var q := zones[x] - 1;
      LinkedThrough(hm, tholds[q], tholds[p], PeakCell(peaks[q]), PeakCell(peaks[p]), x);
    }
  }

  lemma LinkedAlong(hm: seq<int>, t: int, path: seq<int>, k: nat)
    requires OnCells(hm) && IsPath(Above(hm, t), path) && path[0] in Above(hm, t) && k < |path|
    ensures Linked(hm, t, path[0], path[k])
  {
    var part := path[..k + 1];
    assert IsPath(Above(hm, t), part) && part[0] == path[0] && part[|part| - 1] == path[k];
  }

  /** A path of strong cells from an unmarked peak meets no marked cell. */
  lemma PathStaysFree(hm: seq<int>, peaks: seq<Peak>, tholds: seq<int>, zones: seq<int>, p: nat, path: seq<int>)
    requires Suited(hm, peaks, tholds) && OnCells(zones) && p < |peaks| && ComponentsOn(hm, peaks, tholds, zones, p)
    requires (forall j :: 0 <= j < CELLS ==> 0 <= zones[j] <= p) && zones[PeakCell(peaks[p])] == 0
    requires IsPath(Above(hm, tholds[p]), path) && path[0] == PeakCell(peaks[p]) && path[0] in Above(hm, tholds[p])
    ensures IsPath(Free(hm, zones, tholds[p]), path)
  {
    forall k: nat | 1 <= k < |path| ensures path[k] in Free(hm, zones, tholds[p]) {
      LinkedAlong(hm, tholds[p], path, k);
      OwnerWouldReach(hm, peaks, tholds, zones, p, path[k]);
    }
  }

  lemma FreeIsAbove(hm: seq<int>, map1: seq<int>, t: int, a: int, b: int)
    requires OnCells(hm) && OnCells(map1) && Joined(Free(hm, map1, t), a, b)
    ensures Joined(Above(hm, t), a, b)
  {
    var path :| IsPath(Free(hm, map1, t), path) && path[0] == a && path[|path| - 1] == b;
    assert IsPath(Above(hm, t), path);
  }

  /** What is joined to a cell through cells of a set is the cell itself or in the set. */
  lemma JoinedEnds(open: set<int>, s: int, j: int)
    requires Joined(open, s, j)
    ensures j == s || j in open
  {
  }

  lemma JoinedStarts(open: set<int>, s: int, j: int)
    requires Joined(open, s, j)
    ensures j == s || exists k :: k in open && Adjacent(s, k)
  {
    var path :| IsPath(open, path) && path[0] == s && path[|path| - 1] == j;
    if |path| > 1 { assert path[1] in open && Adjacent(s, path[1]); }
  }

  /** Nothing is joined to a cell with no open neighbour. */
  lemma JoinedNowhere(hm: seq<int>, zones: seq<int>, t: int, s: int, j: int)
    requires OnCells(hm) && OnCells(zones) && (forall k :: IsCell(k) && Adjacent(s, k) ==> hm[k] < t)
    requires Joined(Free(hm, zones, t), s, j)
    ensures j == s
  {
    JoinedStarts(Free(hm, zones, t), s, j);
  }

  /** One flood marks exactly the component of a strong peak as core. */
  lemma CoreIsComponent(hm: seq<int>, peaks: seq<Peak>, tholds: seq<int>, h: History, n: nat, p: nat, j: int)
    requires HistorySized(hm, peaks, tholds, h, n) && p < n && Suited(hm, peaks, tholds) && tholds[p] <= peaks[p].z
    requires LabelsOk(hm, peaks, tholds, h, n, p) && Components(hm, peaks, tholds, h, n, p)
    requires FloodedAt(hm, peaks, tholds, h, n, p) && h.maps[p][PeakCell(peaks[p])] == 0 && IsCell(j)
    ensures j in h.cores[p] <==> Linked(hm, tholds[p], PeakCell(peaks[p]), j)
  {
    var cell, t, zones := PeakCell(peaks[p]), tholds[p], h.maps[p];
    if j in h.cores[p] {
      FreeIsAbove(hm, zones, t, cell, j);
      JoinedEnds(Free(hm, zones, t), cell, j);
    }
    if Linked(hm, t, cell, j) {
      var path :| IsPath(Above(hm, t), path) && path[0] == cell && path[|path| - 1] == j;
      PathStaysFree(hm, peaks, tholds, zones, p, path);
      assert Joined(Free(hm, zones, t), cell, j);
    }
  }

  /** A flooded peak below its threshold that stands alone has no core but its own cell. */
  lemma WeakCore(hm: seq<int>, peaks: seq<Peak>, tholds: seq<int>, h: History, n: nat, p: nat)
    requires HistorySized(hm, peaks, tholds, h, n) && p < n && tholds[p] > peaks[p].z && Alone(hm, peaks, p)
    requires FloodedAt(hm, peaks, tholds, h, n, p) && h.maps[p][PeakCell(peaks[p])] == 0
    ensures h.cores[p] == {PeakCell(peaks[p])}
    ensures forall j :: j in h.marks[p] ==> IsCell(j) && hm[j] < tholds[p]
    ensures forall j :: j in h.marks[p] ==> j == PeakCell(peaks[p]) || Adjacent(PeakCell(peaks[p]), j)
  {
    var cell := PeakCell(peaks[p]);
    forall j | j in h.cores[p] ensures j == cell {
      JoinedNowhere(hm, h.maps[p], tholds[p], cell, j);
    }
  }

  /** A flood adds its own component, under its own label, to the strong cells marked. */
  lemma FloodAddsComponent(hm: seq<int>, peaks: seq<Peak>, tholds: seq<int>, h: History, n: nat, p: nat, j: int)
    requires HistorySized(hm, peaks, tholds, h, n) && p < n && Suited(hm, peaks, tholds)
    requires LabelsOk(hm, peaks, tholds, h, n, p) && Components(hm, peaks, tholds, h, n, p)
    requires FloodedAt(hm, peaks, tholds, h, n, p) && h.maps[p][PeakCell(peaks[p])] == 0
    requires IsCell(j) && hm[j] >= tholds[p]
    ensures h.maps[p + 1][j] == if Linked(hm, tholds[p], PeakCell(peaks[p]), j) then p + 1 else h.maps[p][j]
  {
    if tholds[p] <= peaks[p].z {
      CoreIsComponent(hm, peaks, tholds, h, n, p, j);
    } else {
      WeakCore(hm, peaks, tholds, h, n, p);
    }
  }

  /** No flood with a threshold above a lone peak marks that peak, unless it is its own. */
  lemma WeakUnmarked(hm: seq<int>, peaks: seq<Peak>, tholds: seq<int>, h: History, n: nat, p: nat, q: nat)
    requires HistorySized(hm, peaks, tholds, h, n) && p < |peaks| && q < n && p != q && tholds[q] > peaks[p].z
    requires Alone(hm, peaks, p) && FloodedAt(hm, peaks, tholds, h, n, q)
    ensures PeakCell(peaks[p]) !in h.marks[q]
  {
    var cell, seed := PeakCell(peaks[p]), PeakCell(peaks[q]);
    assert cell != seed;
    if h.maps[q][seed] == 0 {
      var open := Free(hm, h.maps[q], tholds[q]);
      if cell in h.cores[q] { JoinedEnds(open, seed, cell); }
      forall c | c in h.cores[q] ensures !Adjacent(c, cell) {
        JoinedEnds(open, seed, c);
        assert Adjacent(c, cell) ==> Adjacent(cell, c);
      }
    }
  }

  lemma FloodKeepsComponents(hm: seq<int>, peaks: seq<Peak>, tholds: seq<int>, zones: seq<int>, zones': seq<int>,
                             p: nat)
    requires Suited(hm, peaks, tholds) && OnCells(zones) && OnCells(zones') && p < |peaks|
    requires ComponentsOn(hm, peaks, tholds, zones, p) && (forall j :: 0 <= j < CELLS ==> 0 <= zones[j] <= p)
    requires forall j :: 0 <= j < CELLS ==> zones'[j] == zones[j] || (zones[j] == 0 && zones'[j] == p + 1)
    requires forall j :: 0 <= j < CELLS && hm[j] >= tholds[p] ==>
               zones'[j] == if Linked(hm, tholds[p], PeakCell(peaks[p]), j) then p + 1 else zones[j]
    ensures ComponentsOn(hm, peaks, tholds, zones', p + 1)
  {
    forall j, q | 0 <= j < CELLS && 0 <= q < p + 1 && Linked(hm, tholds[q], PeakCell(peaks[q]), j)
      ensures zones'[j] != 0
    {
      if q == p { assert hm[j] >= tholds[p]; }
    }
    forall j, q | 0 <= j < CELLS && 0 <= q < p + 1 && hm[j] >= tholds[q] && zones'[j] == q + 1
      ensures Linked(hm, tholds[q], PeakCell(peaks[q]), j)
    {
      if q < p { assert zones[j] == q + 1; }
    }
  }

  lemma AbsorbedAddsNothing(hm: seq<int>, peaks: seq<Peak>, tholds: seq<int>, zones: seq<int>, p: nat)
    requires Suited(hm, peaks, tholds) && OnCells(zones) && p < |peaks| && ComponentsOn(hm, peaks, tholds, zones, p)
    requires (forall j :: 0 <= j < CELLS ==> 0 <= zones[j] <= p) && zones[PeakCell(peaks[p])] != 0
    ensures ComponentsOn(hm, peaks, tholds, zones, p + 1)
  {
    var cell := PeakCell(peaks[p]);
    var owner := zones[cell] - 1;
    forall j | 0 <= j < CELLS && Linked(hm, tholds[p], cell, j) ensures zones[j] != 0 {
      AbsorbedLinks(hm, peaks, tholds, zones, p, owner, j);
    }
  }

  /** A cell linked to an absorbed peak is linked to the peak whose zone absorbed it. */
  lemma AbsorbedLinks(hm: seq<int>, peaks: seq<Peak>, tholds: seq<int>, zones: seq<int>, p: nat, owner: nat, j: int)
    requires Suited(hm, peaks, tholds) && OnCells(zones) && p < |peaks| && ComponentsOn(hm, peaks, tholds, zones, p)
    requires owner < p && zones[PeakCell(peaks[p])] == owner + 1
    requires 0 <= j < CELLS && Linked(hm, tholds[p], PeakCell(peaks[p]), j)
    ensures zones[j] != 0
  {
    LinkedLower(hm, tholds[owner], tholds[p], PeakCell(peaks[p]), j);
    LinkedTrans(hm, tholds[owner], PeakCell(peaks[owner]), PeakCell(peaks[p]), j);
  }

  lemma ComponentStep(hm: seq<int>, peaks: seq<Peak>, tholds: seq<int>, h: History, n: nat, p: nat)
    requires HistorySized(hm, peaks, tholds, h, n) && p < n && Suited(hm, peaks, tholds)
    requires LabelsOk(hm, peaks, tholds, h, n, p) && Components(hm, peaks, tholds, h, n, p)
    requires FloodedAt(hm, peaks, tholds, h, n, p)
    ensures Components(hm, peaks, tholds, h, n, p + 1)
  {
    var cell := PeakCell(peaks[p]);
    if h.maps[p][cell] == 0 {
      forall j | 0 <= j < CELLS && hm[j] >= tholds[p]
        ensures h.maps[p + 1][j] == if Linked(hm, tholds[p], cell, j) then p + 1 else h.maps[p][j]
      {
        FloodAddsComponent(hm, peaks, tholds, h, n, p, j);
      }
      MarksWereFree(hm, h.maps[p], h.maps[p + 1], p + 1, tholds[p], cell, h.cores[p], h.marks[p]);
      FloodKeepsComponents(hm, peaks, tholds, h.maps[p], h.maps[p + 1], p);
    } else {
      AbsorbedAddsNothing(hm, peaks, tholds, h.maps[p], p);
    }
  }

  lemma Componented(hm: seq<int>, peaks: seq<Peak>, tholds: seq<int>, h: History, n: nat, p: nat)
    requires FloodRun(hm, peaks, tholds, h, n) && p <= n && Suited(hm, peaks, tholds)
    ensures LabelsOk(hm, peaks, tholds, h, n, p) && Components(hm, peaks, tholds, h, n, p)
  {
    Labelled(hm, peaks, tholds, h, n, p);
    for k := 0 to p
      invariant Components(hm, peaks, tholds, h, n, k)
    {
      assert FloodedAt(hm, peaks, tholds, h, n, k);
      Labelled(hm, peaks, tholds, h, n, k);
      ComponentStep(hm, peaks, tholds, h, n, k);
    }
  }

  /** The core of a flooded zone is exactly the component of its peak at the peak's own threshold, or the peak's own
      cell alone when the peak is below it. */
  lemma ZoneIsComponent(hm: seq<int>, peaks: seq<Peak>, tholds: seq<int>, h: History, n: nat, p: nat, j: int)
    requires FloodRun(hm, peaks, tholds, h, n) && p < n && Suited(hm, peaks, tholds) && IsCell(j)
    requires h.cores[p] != {}
    ensures j in h.cores[p] <==>
            if tholds[p] <= peaks[p].z then Linked(hm, tholds[p], PeakCell(peaks[p]), j) else j == PeakCell(peaks[p])
  {
    Componented(hm, peaks, tholds, h, n, p);
    assert FloodedAt(hm, peaks, tholds, h, n, p);
    if tholds[p] <= peaks[p].z {
      CoreIsComponent(hm, peaks, tholds, h, n, p, j);
    } else {
      WeakCore(hm, peaks, tholds, h, n, p);
    }
  }

  /** A cell strong enough for every peak ends up in a zone exactly when it is linked to some peak at its threshold. */
  lemma StrongCellsAreCovered(hm: seq<int>, peaks: seq<Peak>, tholds: seq<int>, h: History, j: int)
    requires FloodRun(hm, peaks, tholds, h, |peaks|) && Suited(hm, peaks, tholds) && IsCell(j)
    requires forall q :: 0 <= q < |peaks| ==> hm[j] >= tholds[q]
    ensures h.maps[|peaks|][j] != 0 <==> exists q :: 0 <= q < |peaks| && Linked(hm, tholds[q], PeakCell(peaks[q]), j)
  {
    Componented(hm, peaks, tholds, h, |peaks|, |peaks|);
    var z := h.maps[|peaks|][j];
    if z != 0 {
      assert Linked(hm, tholds[z - 1], PeakCell(peaks[z - 1]), j);
    }
  }

  /** A peak linked to an earlier one at the earlier one's threshold is absorbed: it floods nothing. */
  lemma EarlierPeakAbsorbs(hm: seq<int>, peaks: seq<Peak>, tholds: seq<int>, h: History, a: nat, b: nat)
    requires FloodRun(hm, peaks, tholds, h, |peaks|) && Suited(hm, peaks, tholds)
    requires a < b < |peaks| && Linked(hm, tholds[a], PeakCell(peaks[a]), PeakCell(peaks[b]))
    ensures h.marks[b] == {}
  {
    Componented(hm, peaks, tholds, h, |peaks|, b);
    assert FloodedAt(hm, peaks, tholds, h, |peaks|, b);
  }

  // ----- which peaks share a zone -----

  /** Peak `p` owns the zone of peak `a`: they are linked at the owner's threshold, or `a` owns its zone and is below
      its threshold. */
  lemma OwnerOfPeak(hm: seq<int>, peaks: seq<Peak>, tholds: seq<int>, h: History, a: nat) returns (p: nat)
    requires FloodRun(hm, peaks, tholds, h, |peaks|) && Suited(hm, peaks, tholds) && a < |peaks|
    ensures p <= a && h.maps[|peaks|][PeakCell(peaks[a])] == p + 1 && h.marks[p] != {}
    ensures Linked(hm, tholds[p], PeakCell(peaks[p]), PeakCell(peaks[a])) || (p == a && peaks[a].z < tholds[a])
  {
    var n, cell := |peaks|, PeakCell(peaks[a]);
    Componented(hm, peaks, tholds, h, n, n);
    p := h.maps[n][cell] - 1;
    assert cell in h.marks[p];
    if peaks[a].z < tholds[p] && p != a {
      assert FloodedAt(hm, peaks, tholds, h, n, p);
      assert tholds[p] <= peaks[a].z || Alone(hm, peaks, a);
      WeakUnmarked(hm, peaks, tholds, h, n, a, p);
    }
  }

  /** A peak that owns its zone is linked to no earlier peak. */
  lemma OwnersApart(hm: seq<int>, peaks: seq<Peak>, tholds: seq<int>, h: History, p: nat, q: nat, x: int)
    requires FloodRun(hm, peaks, tholds, h, |peaks|) && Suited(hm, peaks, tholds)
    requires p < |peaks| && q < |peaks| && h.marks[p] != {} && h.marks[q] != {}
    requires Linked(hm, tholds[p], PeakCell(peaks[p]), x) && Linked(hm, tholds[q], PeakCell(peaks[q]), x)
    ensures p == q
  {
    if p < q {
      LinkedThrough(hm, tholds[p], tholds[q], PeakCell(peaks[p]), PeakCell(peaks[q]), x);
      EarlierPeakAbsorbs(hm, peaks, tholds, h, p, q);
    } else if q < p {
      LinkedThrough(hm, tholds[q], tholds[p], PeakCell(peaks[q]), PeakCell(peaks[p]), x);
      EarlierPeakAbsorbs(hm, peaks, tholds, h, q, p);
    }
  }

  /** Some peak up to `a` is linked to both at its own threshold. */
  ghost predicate Meet(hm: seq<int>, peaks: seq<Peak>, tholds: seq<int>, a: nat, b: nat)
    requires PeaksOk(hm, peaks) && |tholds| == |peaks| && a < |peaks| && b < |peaks|
  {
    exists r: nat :: r <= a && Linked(hm, tholds[r], PeakCell(peaks[r]), PeakCell(peaks[a]))
      && Linked(hm, tholds[r], PeakCell(peaks[r]), PeakCell(peaks[b]))
  }

  lemma SharersMeet(hm: seq<int>, peaks: seq<Peak>, tholds: seq<int>, h: History, a: nat, b: nat)
    requires FloodRun(hm, peaks, tholds, h, |peaks|) && Suited(hm, peaks, tholds) && a < b < |peaks|
    requires h.maps[|peaks|][PeakCell(peaks[a])] == h.maps[|peaks|][PeakCell(peaks[b])]
    ensures Meet(hm, peaks, tholds, a, b)
  {
    var p := OwnerOfPeak(hm, peaks, tholds, h, a);
    var q := OwnerOfPeak(hm, peaks, tholds, h, b);
    assert Linked(hm, tholds[p], PeakCell(peaks[p]), PeakCell(peaks[b]));
  }

  /** A peak that an earlier one reaches is linked to the owner of its zone. */
  lemma ReachedOwner(hm: seq<int>, peaks: seq<Peak>, tholds: seq<int>, h: History, a: nat, r: nat) returns (p: nat)
    requires FloodRun(hm, peaks, tholds, h, |peaks|) && Suited(hm, peaks, tholds) && r <= a < |peaks|
    requires Linked(hm, tholds[r], PeakCell(peaks[r]), PeakCell(peaks[a]))
    ensures p <= a && h.maps[|peaks|][PeakCell(peaks[a])] == p + 1 && h.marks[p] != {}
    ensures Linked(hm, tholds[p], PeakCell(peaks[p]), PeakCell(peaks[a]))
  {
    p := OwnerOfPeak(hm, peaks, tholds, h, a);
    if p == a && r < a { EarlierPeakAbsorbs(hm, peaks, tholds, h, r, a); }
  }

  /** The owner of a peak comes no later than any peak that reaches it. */
  lemma OwnerIsFirst(hm: seq<int>, peaks: seq<Peak>, tholds: seq<int>, h: History, r: nat, p: nat, x: int)
    requires FloodRun(hm, peaks, tholds, h, |peaks|) && Suited(hm, peaks, tholds)
    requires r < |peaks| && p < |peaks| && h.marks[p] != {}
    requires Linked(hm, tholds[p], PeakCell(peaks[p]), x) && Linked(hm, tholds[r], PeakCell(peaks[r]), x)
    ensures p <= r
  {
    if r < p {
      LinkedThrough(hm, tholds[r], tholds[p], PeakCell(peaks[r]), PeakCell(peaks[p]), x);
      EarlierPeakAbsorbs(hm, peaks, tholds, h, r, p);
    }
  }

  lemma MeetersShare(hm: seq<int>, peaks: seq<Peak>, tholds: seq<int>, h: History, a: nat, b: nat)
    requires FloodRun(hm, peaks, tholds, h, |peaks|) && Suited(hm, peaks, tholds) && a < b < |peaks|
    requires Meet(hm, peaks, tholds, a, b)
    ensures h.maps[|peaks|][PeakCell(peaks[a])] == h.maps[|peaks|][PeakCell(peaks[b])]
  {
    var x, y := PeakCell(peaks[a]), PeakCell(peaks[b]);
    var r: nat :| r <= a && Linked(hm, tholds[r], PeakCell(peaks[r]), x)
                  && Linked(hm, tholds[r], PeakCell(peaks[r]), y);
    var p := ReachedOwner(hm, peaks, tholds, h, a, r);
    OwnerIsFirst(hm, peaks, tholds, h, r, p, x);
    LinkedThrough(hm, tholds[p], tholds[r], PeakCell(peaks[p]), PeakCell(peaks[r]), x);
    LinkedLower(hm, tholds[p], tholds[r], PeakCell(peaks[r]), y);
    LinkedTrans(hm, tholds[p], PeakCell(peaks[p]), PeakCell(peaks[r]), y);
    var q := ReachedOwner(hm, peaks, tholds, h, b, p);
    OwnersApart(hm, peaks, tholds, h, p, q, y);
  }

  /** Two different peaks share a zone exactly when some peak no later than both reaches both at its own threshold. */
  lemma PeaksShareZoneIffMeet(hm: seq<int>, peaks: seq<Peak>, tholds: seq<int>, h: History, a: nat, b: nat)
    requires FloodRun(hm, peaks, tholds, h, |peaks|) && Suited(hm, peaks, tholds) && a < b < |peaks|
    ensures h.maps[|peaks|][PeakCell(peaks[a])] == h.maps[|peaks|][PeakCell(peaks[b])]
       <==> Meet(hm, peaks, tholds, a, b)
  {
    if Meet(hm, peaks, tholds, a, b) {
      MeetersShare(hm, peaks, tholds, h, a, b);
    } else if h.maps[|peaks|][PeakCell(peaks[a])] == h.maps[|peaks|][PeakCell(peaks[b])] {
      SharersMeet(hm, peaks, tholds, h, a, b);
    }
  }

  lemma MeetIsLinked(hm: seq<int>, peaks: seq<Peak>, tholds: seq<int>, t: int, a: nat, b: nat)
    requires CommonThold(hm, peaks, tholds, t) && a < |peaks| && b < |peaks|
    ensures Meet(hm, peaks, tholds, a, b) <==> Linked(hm, t, PeakCell(peaks[a]), PeakCell(peaks[b]))
  {
    var x, y := PeakCell(peaks[a]), PeakCell(peaks[b]);
    if Meet(hm, peaks, tholds, a, b) {
      var r: nat :| r <= a && Linked(hm, tholds[r], PeakCell(peaks[r]), x)
                    && Linked(hm, tholds[r], PeakCell(peaks[r]), y);
      LinkedBack(hm, t, PeakCell(peaks[r]), x);
      LinkedTrans(hm, t, x, PeakCell(peaks[r]), y);
    }
    if Linked(hm, t, x, y) {
      JoinedSelf(Above(hm, t), x);
      assert Linked(hm, tholds[a], x, x);
    }
  }

  /** With one threshold two different peaks share a zone exactly when a path of strong cells joins them, whatever the
      order of processing; a peak below the threshold shares its zone with none. */
  lemma PeaksShareZoneIffLinked(hm: seq<int>, peaks: seq<Peak>, tholds: seq<int>, h: History, t: int, a: nat, b: nat)
    requires FloodRun(hm, peaks, tholds, h, |peaks|) && CommonThold(hm, peaks, tholds, t)
    requires a < |peaks| && b < |peaks| && (a != b || t <= peaks[a].z)
    ensures h.maps[|peaks|][PeakCell(peaks[a])] == h.maps[|peaks|][PeakCell(peaks[b])]
       <==> Linked(hm, t, PeakCell(peaks[a]), PeakCell(peaks[b]))
  {
    CommonIsSuited(hm, peaks, tholds, t);
    var x, y := PeakCell(peaks[a]), PeakCell(peaks[b]);
    if a == b {
      JoinedSelf(Above(hm, t), x);
    } else if a < b {
      PeaksShareZoneIffMeet(hm, peaks, tholds, h, a, b);
      MeetIsLinked(hm, peaks, tholds, t, a, b);
    } else {
      PeaksShareZoneIffMeet(hm, peaks, tholds, h, b, a);
      MeetIsLinked(hm, peaks, tholds, t, b, a);
      if Linked(hm, t, x, y) { LinkedBack(hm, t, x, y); }
      if Linked(hm, t, y, x) { LinkedBack(hm, t, y, x); }
    }
  }
}
