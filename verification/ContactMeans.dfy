/** What the contacts of a frame are, said of the heat map: the mean of a lone peak's zone, the mean around each peak
    of a shared one. */
module ContactMeans {
  import opened EngineTypes
  import opened ZoneGrid
  import opened ZoneInfo
  import opened ZoneFlood
  import opened ZoneRun
  import opened ZoneContacts
  import opened ZonePeaks
  import opened Zones
  import CellSums
  import Expander
  import FrontEnd

  /** Moments of the positive signal about the left and the top border. */
  ghost function ColMass(hm: seq<int>): (v: seq<int>)
    requires |hm| == CELLS
    ensures |v| == CELLS && forall i :: 0 <= i < CELLS ==> v[i] == if hm[i] > 0 then Col(i) * hm[i] else 0
  {
    seq(CELLS, i requires 0 <= i < CELLS => if hm[i] > 0 then Col(i) * hm[i] else 0)
  }

  ghost function RowMass(hm: seq<int>): (v: seq<int>)
    requires |hm| == CELLS
    ensures |v| == CELLS && forall i :: 0 <= i < CELLS ==> v[i] == if hm[i] > 0 then Row(i) * hm[i] else 0
  {
    seq(CELLS, i requires 0 <= i < CELLS => if hm[i] > 0 then Row(i) * hm[i] else 0)
  }

  ghost function Signal(hm: seq<int>, cells: set<int>): int
    requires |hm| == CELLS
  {
    CellSums.SetSum(CellSums.Positive(hm), cells, CELLS)
  }

  ghost function ColMoment(hm: seq<int>, cells: set<int>): int
    requires |hm| == CELLS
  {
    CellSums.SetSum(ColMass(hm), cells, CELLS)
  }

  ghost function RowMoment(hm: seq<int>, cells: set<int>): int
    requires |hm| == CELLS
  {
    CellSums.SetSum(RowMass(hm), cells, CELLS)
  }

  // ----- the position -----

  /** `x` is `q` steps of 1/256 and half a cell. */
  ghost predicate AtStep(x: real, q: int) { x == (q + 128) as real / 256.0 }

  /** `x` is the mean `moment / total` cut off to whole steps, half a cell in. */
  ghost predicate IsMean(x: real, moment: int, total: int) {
    total > 0 && exists q :: AtStep(x, q) && q * total <= 256 * moment < q * total + total
  }

  lemma CentroidIsMean(weighted: int, total: int, moment: int)
    requires total > 0 && moment >= 0 && weighted == 128 * moment
    ensures IsMean(Centroid(weighted, total), moment, total)
  {
    var q := TruncDiv(weighted * 2, total);
    TruncDivMeans(weighted * 2, total);
    assert AtStep(Centroid(weighted, total), q);
  }

  // ----- around a peak -----

  lemma {:induction false} WindowRises(r: int, c: int, d: nat)
    requires d <= 9
    ensures CellSums.PlacesRise(Window(r, c, d), r, c, d)
    decreases 9 - d
  {
    if d < 9 {
      WindowRises(r, c, d + 1);
      WindowRise(r, c, d, Window(r, c, d + 1));
    }
  }

  lemma WindowRise(r: int, c: int, d: nat, rest: seq<int>)
    requires d < 9 && CellSums.PlacesRise(rest, r, c, d + 1)
    ensures var (nr, nc) := (r + d / 3 - 1, c + d % 3 - 1);
      CellSums.PlacesRise((if OnGrid(nr, nc) then [Cell(nr, nc)] else []) + rest, r, c, d)
  {
    var (nr, nc) := (r + d / 3 - 1, c + d % 3 - 1);
    if OnGrid(nr, nc) {
      CellSums.RiseBefore(Cell(nr, nc), rest, r, c, d, d + 1);
    } else {
      CellSums.RiseLower(rest, r, c, d, d + 1);
    }
  }

  lemma WindowHas(r: int, c: int, dr: nat, dc: nat)
    requires dr < 3 && dc < 3 && OnGrid(r + dr - 1, c + dc - 1)
    ensures Cell(r + dr - 1, c + dc - 1) in Window(r, c, dr * 3 + dc)
  {
    var d := dr * 3 + dc;
    assert d / 3 == dr && d % 3 == dc;
  }

  lemma WindowHolds(r: int, c: int, jr: int, jc: int)
    requires OnGrid(jr, jc) && -1 <= jr - r <= 1 && -1 <= jc - c <= 1
    ensures Cell(jr, jc) in Window(r, c, 0)
  {
    var dr, dc := jr - r + 1, jc - c + 1;
    WindowHas(r, c, dr, dc);
    WindowShrinks(r, c, dr * 3 + dc, Cell(jr, jc));
  }

  lemma BlockInWindow(r: int, c: int, j: int)
    requires j in CellSums.Block(r, c)
    ensures j in Window(r, c, 0)
  {
    CellOfCoordinates(j);
    WindowHolds(r, c, Row(j), Col(j));
  }

  /** The window lists the block around the peak, each cell once. */
  lemma WindowIsBlock(r: int, c: int)
    ensures var ns := Window(r, c, 0);
      && CellSums.Listed(ns, |ns|) == CellSums.Block(r, c)
      && forall j, k :: 0 <= j < k < |ns| ==> ns[j] != ns[k]
  {
    var ns := Window(r, c, 0);
    WindowRises(r, c, 0);
    forall j | j in CellSums.Block(r, c) ensures j in CellSums.Listed(ns, |ns|) {
      BlockInWindow(r, c, j);
    }
  }

  lemma Scale128(a: int, b: int)
    ensures a * 128 * b == 128 * (a * b)
  {
  }

  lemma {:induction false} WindowSums(hm: seq<int>, ns: seq<int>, n: nat)
    requires |hm| == CELLS && n <= |ns| && forall k :: 0 <= k < |ns| ==> IsCell(ns[k])
    ensures WindowSum(hm, ns, n, ByOne) == CellSums.ListSum(CellSums.Positive(hm), ns, n)
    ensures WindowSum(hm, ns, n, ByCol) == 128 * CellSums.ListSum(ColMass(hm), ns, n)
    ensures WindowSum(hm, ns, n, ByRow) == 128 * CellSums.ListSum(RowMass(hm), ns, n)
  {
    if n > 0 {
      WindowSums(hm, ns, n - 1);
      Scale128(Col(ns[n - 1]), hm[ns[n - 1]]);
      Scale128(Row(ns[n - 1]), hm[ns[n - 1]]);
    }
  }

  lemma {:induction false} MomentsNonNegative(hm: seq<int>, cells: set<int>, n: nat)
    requires |hm| == CELLS && n <= CELLS
    ensures CellSums.SetSum(ColMass(hm), cells, n) >= 0 && CellSums.SetSum(RowMass(hm), cells, n) >= 0
  {
    if n > 0 {
      MomentsNonNegative(hm, cells, n - 1);
      if hm[n - 1] > 0 {
        MulLe(0, Col(n - 1), hm[n - 1]);
        MulLe(0, Row(n - 1), hm[n - 1]);
      }
    }
  }

  /** A contact of a shared zone is the mean of the positive signal of the cells within one row and column of its
      peak. */
  lemma SharedMeans(hm: seq<int>, pk: Peak, area: int, sig: int)
    requires |hm| == CELLS && OnGrid(pk.r, pk.c) && hm[PeakCell(pk)] > 0
    ensures var o, block := LocalContact(hm, pk, area, sig), CellSums.Block(pk.r, pk.c);
      && IsMean(o.x, ColMoment(hm, block), Signal(hm, block)) && IsMean(o.y, RowMoment(hm, block), Signal(hm, block))
      && o.id == pk.id && o.area == area && o.signalSum == sig && o.state == StateDown
  {
    var ns, block := Window(pk.r, pk.c, 0), CellSums.Block(pk.r, pk.c);
    WindowPositive(hm, pk.r, pk.c);
    WindowIsBlock(pk.r, pk.c);
    WindowSums(hm, ns, |ns|);
    CellSums.ListSumIsSetSum(CellSums.Positive(hm), ns, |ns|);
    CellSums.ListSumIsSetSum(ColMass(hm), ns, |ns|);
    CellSums.ListSumIsSetSum(RowMass(hm), ns, |ns|);
    MomentsNonNegative(hm, block, CELLS);
    CentroidIsMean(WindowSum(hm, ns, |ns|, ByCol), WindowSum(hm, ns, |ns|, ByOne), ColMoment(hm, block));
    CentroidIsMean(WindowSum(hm, ns, |ns|, ByRow), WindowSum(hm, ns, |ns|, ByOne), RowMoment(hm, block));
  }

  // ----- over a zone -----

  lemma {:induction false} CoreSums(hm: seq<int>, core: set<int>, n: nat)
    requires OnCells(hm) && n <= CELLS && forall j :: j in core ==> IsCell(j) && hm[j] > 0
    ensures SumOver(hm, core, ByOne, n) == CellSums.SetSum(CellSums.Positive(hm), core, n)
    ensures SumOver(hm, core, ByCol, n) == 128 * CellSums.SetSum(ColMass(hm), core, n)
    ensures SumOver(hm, core, ByRow, n) == 128 * CellSums.SetSum(RowMass(hm), core, n)
  {
    if n > 0 {
      CoreSums(hm, core, n - 1);
      Scale128(Col(n - 1), hm[n - 1]);
      Scale128(Row(n - 1), hm[n - 1]);
    }
  }

  /** Both weighted sums of the zone fit 32 bits. */
  ghost predicate MomentsFit(hm: seq<int>, core: set<int>)
    requires |hm| == CELLS
  {
    128 * ColMoment(hm, core) <= INT_MAX && 128 * RowMoment(hm, core) <= INT_MAX
  }

  lemma CountedSums(hm: seq<int>, u: Unit, e: EdgeInfo, ps: seq<Pixel>, core: set<int>, marked: set<int>)
    requires OnCells(hm) && Counted(hm, ps, core, marked, u, e)
    requires forall j :: j in core ==> IsCell(j) && hm[j] > 0
    ensures CoreSum(ps, ByOne) == Signal(hm, core)
    ensures CoreSum(ps, ByCol) == 128 * ColMoment(hm, core) && CoreSum(ps, ByRow) == 128 * RowMoment(hm, core)
  {
    SumsOverCore(hm, ps, core, marked, ByOne);
    SumsOverCore(hm, ps, core, marked, ByCol);
    SumsOverCore(hm, ps, core, marked, ByRow);
    CoreSums(hm, core, CELLS);
  }

  lemma {:induction false} ListSize(cells: seq<int>, s: set<int>)
    requires Distinct(cells) && forall j :: j in cells <==> j in s
    ensures |cells| == |s|
    decreases |cells|
  {
    if |cells| == 0 {
      assert forall j :: j !in s;
      assert s == {};
    } else {
      var n := |cells| - 1;
      var init, x := cells[..n], cells[n];
      assert cells == init + [x] && x in cells && x !in init;
      assert forall j :: j in init <==> j in s - {x};
      ListSize(init, s - {x});
    }
  }

  /** Peaks in the zone of peak `q`. */
  ghost function Mates(labels: seq<int>, q: nat): set<int>
    requires q < |labels|
  {
    set r | 0 <= r < |labels| && labels[r] == labels[q]
  }

  /** Contact `c` of a peak, given its zone's core: alone there it is the mean of the core, as far as the weighted sums
      fit 32 bits, with its area and signal; among others it is the mean around the peak, with an even share. */
  ghost predicate ContactMeans(hm: seq<int>, pk: Peak, core: set<int>, mates: nat, c: Contact)
    requires |hm| == CELLS
  {
    && c.id == pk.id && c.state == StateDown
    && if mates >= 2 then
         && IsMean(c.x, ColMoment(hm, CellSums.Block(pk.r, pk.c)), Signal(hm, CellSums.Block(pk.r, pk.c)))
         && IsMean(c.y, RowMoment(hm, CellSums.Block(pk.r, pk.c)), Signal(hm, CellSums.Block(pk.r, pk.c)))
         && c.area == |core| / mates && c.signalSum == Signal(hm, core) / mates
       else
         && c.area == |core| && c.signalSum == Signal(hm, core)
         && (MomentsFit(hm, core) ==>
               IsMean(c.x, ColMoment(hm, core), Signal(hm, core)) && IsMean(c.y, RowMoment(hm, core), Signal(hm, core)))
  }

  /** The contact of a zone of one peak. */
  lemma SingleMeans(hm: seq<int>, u: Unit, e: EdgeInfo, ps: seq<Pixel>, core: set<int>, marked: set<int>, pk: Peak)
    requires OnCells(hm) && Counted(hm, ps, core, marked, u, e) && core <= marked
    requires core != {} && forall j :: j in core ==> IsCell(j) && hm[j] > 0
    ensures u.weightTotal > 0 && ContactMeans(hm, pk, core, 1, SingleContact(u, pk.id))
  {
    CountedSums(hm, u, e, ps, core, marked);
    SumsInBox(hm, u, e, ps, core, marked);
    ListedCore(hm, ps, core, marked);
    ListSize(CoreCells(ps), core);
    MomentsNonNegative(hm, core, CELLS);
    if MomentsFit(hm, core) {
      CentroidIsMean(u.weightedColSum, u.weightTotal, ColMoment(hm, core));
      CentroidIsMean(u.weightedRowSum, u.weightTotal, RowMoment(hm, core));
    }
  }

  lemma CountedSize(hm: seq<int>, u: Unit, e: EdgeInfo, ps: seq<Pixel>, core: set<int>, marked: set<int>)
    requires OnCells(hm) && Counted(hm, ps, core, marked, u, e) && core <= marked
    requires core != {} && forall j :: j in core ==> IsCell(j) && hm[j] > 0
    ensures u.area == |core| && u.signalSum == Signal(hm, core) > 0
  {
    CountedSums(hm, u, e, ps, core, marked);
    SumsInBox(hm, u, e, ps, core, marked);
    ListedCore(hm, ps, core, marked);
    ListSize(CoreCells(ps), core);
  }

  /** The contact of a peak from the unit of its zone. */
  lemma ZoneContactMeans(hm: seq<int>, u: Unit, e: EdgeInfo, ps: seq<Pixel>, core: set<int>, marked: set<int>, pk: Peak,
                         v: Unit)
    requires OnCells(hm) && Counted(hm, ps, core, marked, u, e) && core <= marked
    requires core != {} && forall j :: j in core ==> IsCell(j) && hm[j] > 0
    requires v == u.(peakIndices := v.peakIndices) && OnGrid(pk.r, pk.c) && hm[PeakCell(pk)] > 0
    requires |v.peakIndices| >= 1
    ensures ContactMeans(hm, pk, core, |v.peakIndices|, ContactOf(hm, pk, v))
  {
    var n := |v.peakIndices|;
    CountedSize(hm, u, e, ps, core, marked);
    if n >= 2 {
      SharedMeans(hm, pk, TruncDiv(v.area, n), TruncDiv(v.signalSum, n));
    } else {
      SingleMeans(hm, u, e, ps, core, marked, pk);
    }
  }

  lemma MatesListed(labels: seq<int>, q: nat)
    requires Rooted(labels) && q < |labels|
    ensures |Owned(labels, labels[q] - 1, |labels|)| == |Mates(labels, q)| >= 1
  {
    var list := Owned(labels, labels[q] - 1, |labels|);
    OwnedMeans(labels, labels[q] - 1, |labels|);
    ListSize(list, Mates(labels, q));
    assert q in Mates(labels, q);
  }

  /** The unit the contact of peak `q` is made from. */
  lemma OwnerLists(labels: seq<int>, flooded: seq<Unit>, scanned: seq<Unit>, q: nat)
    requires Rooted(labels) && q < |labels| == |flooded| && ScannedUnits(labels, flooded, scanned, |labels|)
    ensures 1 <= labels[q] <= |labels| && |scanned[labels[q] - 1].peakIndices| == |Mates(labels, q)| >= 1
  {
    OwnerIsRoot(labels, q);
    var p := labels[q] - 1;
    assert scanned[p] == ScannedUnit(labels, flooded[p], p, |labels|);
    MatesListed(labels, q);
  }

  lemma UnitContactMeans(hm: seq<int>, peaks: seq<Peak>, h: History, p: nat, u: Unit, e: EdgeInfo, ps: seq<Pixel>,
                         pk: Peak, v: Unit)
    requires OnCells(hm) && p < |peaks| && p < |h.cores| && p < |h.marks| && UnitOk(hm, peaks, h, p, u, e, ps)
    requires u.area != 0 && v == u.(peakIndices := v.peakIndices) && |v.peakIndices| >= 1
    requires OnGrid(pk.r, pk.c) && hm[PeakCell(pk)] > 0
    ensures ContactMeans(hm, pk, h.cores[p], |v.peakIndices|, ContactOf(hm, pk, v))
    ensures Finished(v).kind == TypeOf(h.cores[p], |v.peakIndices|)
  {
    FloodedUnit(hm, peaks, h, p, u, e, ps);
    CountedSize(hm, u, e, ps, h.cores[p], h.marks[p]);
    ZoneContactMeans(hm, u, e, ps, h.cores[p], h.marks[p], pk, v);
  }

  /** Shared zones, and among the others those of ten cells or more. */
  ghost function TypeOf(core: set<int>, mates: nat): ZoneKind {
    if mates >= 2 then MultiFinger else if |core| >= 10 then FatFinger else NormalFinger
  }

  /** Contact `c` of peak `q`, and the type of its zone. */
  ghost predicate Told(hm: seq<int>, peaks: seq<Peak>, t: Expander.Trace, q: nat, c: Contact) {
    && |hm| == CELLS && q < |peaks| == |t.labels| == |t.h.cores| && 1 <= t.labels[q] <= |peaks|
    && ContactMeans(hm, peaks[q], t.h.cores[t.labels[q] - 1], |Mates(t.labels, q)|, c)
    && |t.scanned| == |peaks|
    && Finished(t.scanned[t.labels[q] - 1]).kind == TypeOf(t.h.cores[t.labels[q] - 1], |Mates(t.labels, q)|)
  }

  lemma WantedMeans(hm: seq<int>, peaks: seq<Peak>, t: Expander.Trace, edges: seq<EdgeInfo>, q: nat)
    requires PeaksOk(hm, peaks) && UnitsOk(hm, peaks, t.h, |peaks|, t.flooded, edges, t.pixels) && q < |peaks|
    requires Unscanned(t.labels, t.flooded) && |t.labels| == |peaks|
    requires ScannedUnits(t.labels, t.flooded, t.scanned, |t.labels|)
    ensures Told(hm, peaks, t, q, Expected(hm, peaks, t.labels, t.scanned, |peaks|)[q])
  {
    var p := FrontEnd.OwnerUnit(hm, peaks, t.h, t.flooded, edges, t.pixels, t.labels, t.scanned, q);
    OwnerLists(t.labels, t.flooded, t.scanned, q);
    ExpectedAt(hm, peaks, t.labels, t.scanned, |peaks|, q);
    UnitContactMeans(hm, peaks, t.h, p, t.flooded[p], edges[p], t.pixels[p], peaks[q], t.scanned[p]);
  }

  /** Every peak of a frame gets the contact its heat map calls for; the contacts are those of the peaks, zone by zone,
      before the cut. */
  lemma EveryContactMeans(numer: int, sigThold: int, maxTouches: int, hm: seq<int>, peaks: seq<Peak>, t: Expander.Trace,
                          edges: seq<EdgeInfo>, contacts: seq<Contact>, k: nat)
    requires FrontEnd.ContactsOf(numer, sigThold, maxTouches, hm, peaks, t, edges, contacts) && k < |peaks|
    ensures |t.all| == |t.labels| == |Roster(t.labels, |peaks|)| == |peaks| && 0 <= Roster(t.labels, |peaks|)[k]
    ensures Told(hm, peaks, t, Roster(t.labels, |peaks|)[k], t.all[k])
  {
    FloodedUnitsUnscanned(hm, peaks, Tholds(numer, sigThold, peaks), t.h, t.flooded, edges, t.pixels);
    RosterIsPartition(t.labels);
    var q := Roster(t.labels, |peaks|)[k];
    assert q in Roster(t.labels, |peaks|);
    WantedMeans(hm, peaks, t, edges, q);
  }

  // ----- the border sums of a zone -----

  ghost function OfBand(marked: set<int>, b: Band): set<int> { set j | j in marked && InBand(b, j) }

  lemma {:induction false} BandSumIsSetSum(hm: seq<int>, ps: seq<Pixel>, core: set<int>, marked: set<int>, b: Band)
    requires OnCells(hm) && Listed(hm, ps, core, marked)
    ensures BandSum(ps, b) == CellSums.SetSum(hm, OfBand(marked, b), CELLS)
  {
    if |ps| == 0 {
      assert OfBand(marked, b) == {};
      CellSums.SetSumNothing(hm, CELLS);
    } else {
      var init, p := ps[..|ps| - 1], ps[|ps| - 1];
      var rest := marked - {p.cell};
      BandSumIsSetSum(hm, init, core - {p.cell}, rest, b);
      if InBand(b, p.cell) {
        assert OfBand(marked, b) == OfBand(rest, b) + {p.cell};
        CellSums.SetSumAdd(hm, OfBand(rest, b), p.cell, CELLS);
      } else {
        assert OfBand(marked, b) == OfBand(rest, b);
      }
    }
  }

  ghost function InColumns(marked: set<int>, a: int, b: int): set<int> {
    set j | j in marked && (Col(j) == a || Col(j) == b)
  }

  ghost function InRows(marked: set<int>, a: int, b: int): set<int> {
    set j | j in marked && (Row(j) == a || Row(j) == b)
  }

  /** A zone's border sums are the signal of its marked cells in the two outermost columns and rows on either side. */
  lemma BorderSumsMean(hm: seq<int>, u: Unit, e: EdgeInfo, ps: seq<Pixel>, core: set<int>, marked: set<int>)
    requires OnCells(hm) && Counted(hm, ps, core, marked, u, e)
    ensures e.outerColSigSum == CellSums.SetSum(hm, InColumns(marked, 0, 59), CELLS)
    ensures e.innerColSigSum == CellSums.SetSum(hm, InColumns(marked, 1, 58), CELLS)
    ensures e.outerRowSigSum == CellSums.SetSum(hm, InRows(marked, 0, 39), CELLS)
    ensures e.innerRowSigSum == CellSums.SetSum(hm, InRows(marked, 1, 38), CELLS)
  {
    BandSumIsSetSum(hm, ps, core, marked, OuterCol);
    BandSumIsSetSum(hm, ps, core, marked, InnerCol);
    BandSumIsSetSum(hm, ps, core, marked, OuterRow);
    BandSumIsSetSum(hm, ps, core, marked, InnerRow);
    assert OfBand(marked, OuterCol) == InColumns(marked, 0, 59);
    assert OfBand(marked, InnerCol) == InColumns(marked, 1, 58);
    assert OfBand(marked, OuterRow) == InRows(marked, 0, 39);
    assert OfBand(marked, InnerRow) == InRows(marked, 1, 38);
  }
}
