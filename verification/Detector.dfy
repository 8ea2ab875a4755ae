/** The peak detector: scan, filters, sort and cap. */
module Detector {
  import opened EngineTypes
  import opened ZoneGrid
  import opened ZoneRun
  import opened Peaks
  import PeakFilters
  import Sorting

  /** The neighbour at offset `d`, if there is one, is beaten. */
  ghost predicate Passes(hm: seq<int>, i: int, d: nat)
    requires |hm| == CELLS && IsCell(i) && d < 8
  {
    var (r, c) := (Row(i) + DR(d), Col(i) + DC(d));
    OnGrid(r, c) ==> Beats(hm, i, Cell(r, c))
  }

  lemma LocalMaxByOffset(hm: seq<int>, i: int)
    requires |hm| == CELLS && IsCell(i)
    ensures LocalMax(hm, i) <==> forall d: nat :: d < 8 ==> Passes(hm, i, d)
  {
    forall d: nat | d < 8 && LocalMax(hm, i) ensures Passes(hm, i, d) {
      if OnGrid(Row(i) + DR(d), Col(i) + DC(d)) { OffsetIsAdjacent(i, d); }
    }
    if forall d: nat :: d < 8 ==> Passes(hm, i, d) {
      forall j | IsCell(j) && Adjacent(i, j) ensures Beats(hm, i, j) {
        var d := FindOffset(i, j);
        assert Passes(hm, i, d);
      }
    }
  }

  /** The tests toward later cells, ties allowed. */
  method BeatsLower(hm: seq<int>, i: int) returns (ok: bool)
    requires |hm| == CELLS && IsCell(i)
    ensures ok <==> Passes(hm, i, 4) && Passes(hm, i, 5) && Passes(hm, i, 6) && Passes(hm, i, 7)
  {
    var v, atBot, atLft, atRgt := hm[i], Row(i) >= ROWS - 1, Col(i) <= 0, Col(i) >= COLS - 1;
    if !atBot && !atRgt && hm[i + COLS + 1] > v { return false; }
    if !atBot && hm[i + COLS] > v { return false; }
    if !atBot && !atLft && hm[i + COLS - 1] > v { return false; }
    return !(!atRgt && hm[i + 1] > v);
  }

  /** The tests toward earlier cells, strict. */
  method BeatsUpper(hm: seq<int>, i: int) returns (ok: bool)
    requires |hm| == CELLS && IsCell(i)
    ensures ok <==> Passes(hm, i, 0) && Passes(hm, i, 1) && Passes(hm, i, 2) && Passes(hm, i, 3)
  {
    var v, atTop, atLft, atRgt := hm[i], Row(i) <= 0, Col(i) <= 0, Col(i) >= COLS - 1;
    if !atLft && hm[i - 1] >= v { return false; }
    if !atTop && !atRgt && hm[i - COLS + 1] >= v { return false; }
    if !atTop && hm[i - COLS] >= v { return false; }
    return !(!atTop && !atLft && hm[i - COLS - 1] >= v);
  }

  /** The eight tests, in the order of the scan. */
  method IsLocalMax(hm: seq<int>, i: int) returns (ok: bool)
    requires |hm| == CELLS && IsCell(i)
    ensures ok <==> LocalMax(hm, i)
  {
    LocalMaxByOffset(hm, i);
    ok := BeatsLower(hm, i);
    if ok { ok := BeatsUpper(hm, i); }
  }

  lemma Fewer(a: multiset<Peak>, b: multiset<Peak>)
    requires a <= b
    ensures |a| <= |b|
  {
    assert b == a + (b - a);
  }

  /** What holds of the filtered peaks in any order. */
  lemma FrameDetected(cfg: Config, hm: seq<int>, kept: seq<Peak>, dropped: seq<Peak>, peaks: seq<Peak>)
    requires |hm| == CELLS && TopOf(Accepted(cfg, hm), kept, dropped)
    requires multiset(peaks) == multiset(Filtered(cfg, kept))
    ensures |peaks| <= MAX_PEAKS && multiset(peaks) <= multiset(Accepted(cfg, hm))
    ensures PeakFilters.Delivers(cfg, hm, multiset(kept), multiset(peaks))
    ensures cfg.threshold > 0 && (cfg.edgeThresholdEnabled ==> cfg.edgeThreshold > 0) ==>
              Standing(hm, peaks) && (AllReach(cfg) ==> forall k :: 0 <= k < |peaks| ==> peaks[k].z >= cfg.threshold)
  {
    FilteredMeans(cfg, kept);
    PeakFilters.DeliveredPeaks(cfg, hm, kept);
    Fewer(multiset(peaks), multiset(kept));
    if cfg.threshold > 0 && (cfg.edgeThresholdEnabled ==> cfg.edgeThreshold > 0) {
      DetectedPeaksOk(cfg, hm, peaks);
      if AllReach(cfg) { AllPeaksReach(cfg, hm, kept, peaks); }
    }
  }

  lemma AllPeaksReach(cfg: Config, hm: seq<int>, kept: seq<Peak>, peaks: seq<Peak>)
    requires |hm| == CELLS && AllReach(cfg) && PeaksOk(hm, peaks)
    requires multiset(peaks) == multiset(Filtered(cfg, kept))
    requires forall i :: 0 <= i < |peaks| ==> Accepts(cfg, hm, PeakCell(peaks[i]))
    ensures forall k :: 0 <= k < |peaks| ==> peaks[k].z >= cfg.threshold
  {
    FilteredMeans(cfg, kept);
    forall k | 0 <= k < |peaks| ensures peaks[k].z >= cfg.threshold {
      assert peaks[k] in multiset(peaks);
      assert Accepts(cfg, hm, PeakCell(peaks[k]));
    }
  }

  ghost predicate IsEntry(hm: seq<int>, table: seq<Peak>, i: int)
    requires |hm| == CELLS && IsCell(i) && |table| == CELLS
  {
    table[i] == PeakAt(hm, i)
  }

  ghost predicate IsTable(hm: seq<int>, table: seq<Peak>)
    requires |hm| == CELLS
  {
    |table| == CELLS && forall i {:trigger IsEntry(hm, table, i)} :: IsCell(i) ==> IsEntry(hm, table, i)
  }

  lemma TopOfNothing(table: seq<Peak>, cells: set<int>)
    ensures TopBefore(table, cells, 0, [], [])
  {
    assert TopOf(Entries(table, cells, 0), [], []);
  }

  lemma TopOfAll(cfg: Config, hm: seq<int>, kept: seq<Peak>, dropped: seq<Peak>)
    requires |hm| == CELLS && TopBefore(PeakTable(hm), AcceptedCells(cfg, hm), CELLS, kept, dropped)
    ensures TopOf(Accepted(cfg, hm), kept, dropped)
  {
  }

  class PeakDetector {
    const cfg: Config
    var peaks: seq<Peak>

    constructor (cfg: Config)
      ensures this.cfg == cfg && peaks == []
    {
      this.cfg, peaks := cfg, [];
    }

    /** Palm press test: early exit on a steep gradient. */
    method DetectPressureDrift(hm: seq<int>, i: int) returns (drift: bool)
      requires |hm| == CELLS && IsCell(i)
      ensures drift <==> Drifts(cfg, hm, i)
    {
      var row, sig, limit := Row(i), hm[i], cfg.sigTholdLimit;
      if sig > TruncDiv(limit * 3, 4) || sig < TruncDiv(limit * 3, 8) { return false; }
      var gradientSum, rowSum := 0, 0;
      for c := 1 to COLS - 1
        invariant gradientSum == GradientSum(hm, row, c) && rowSum == RowSum(hm, row, c)
        invariant forall k :: 1 <= k < c ==> Gradient(hm, row, k) <= TruncDiv(limit, 3)
      {
        var grad := Abs(hm[Cell(row, c + 1)] - hm[Cell(row, c - 1)]);
        assert grad == Gradient(hm, row, c);
        if grad > TruncDiv(limit, 3) { return false; }
        gradientSum := gradientSum + grad;
        if hm[Cell(row, c)] > 0 { rowSum := rowSum + hm[Cell(row, c)]; }
      }
      return rowSum >= TruncDiv(sig * 9, 2) && sig * 6 >= gradientSum;
    }

    /** Sum of the neighbours' signals. */
    method CalcZn(hm: seq<int>, i: int) returns (sum: int)
      requires |hm| == CELLS && IsCell(i)
      ensures sum == SignalSum(hm, Ring(i), |Ring(i)|)
    {
      var ns := Ring(i);
      sum := 0;
      for k := 0 to |ns|
        invariant sum == SignalSum(hm, ns, k)
      {
        sum := sum + hm[ns[k]];
      }
    }

    method Accept(hm: seq<int>, i: int) returns (ok: bool)
      requires |hm| == CELLS && IsCell(i)
      ensures ok <==> i in AcceptedCells(cfg, hm)
    {
      if hm[i] < TholdAt(cfg, i) { return false; }
      ok := IsLocalMax(hm, i);
      if !ok { return; }
      if cfg.pressureDriftFilter {
        var drift := DetectPressureDrift(hm, i);
        ok := !drift;
      }
    }

    /** First of the weakest peaks. */
    method Weakest() returns (w: nat)
      requires |peaks| > 0
      ensures IsWeakest(peaks, w)
    {
      w := 0;
      for k := 1 to |peaks|
        invariant w < |peaks| && forall j :: 0 <= j < k ==> peaks[w].z <= peaks[j].z
      {
        if peaks[k].z < peaks[w].z { w := k; }
      }
    }

    /** Room for twenty; a stronger peak replaces the weakest. */
    method Insert(p: Peak, ghost all: seq<Peak>, ghost dropped0: seq<Peak>) returns (ghost dropped: seq<Peak>)
      requires TopOf(all, peaks, dropped0)
      modifies this
      ensures TopOf(all + [p], peaks, dropped)
    {
      if |peaks| < MAX_PEAKS {
        TopAppend(all, peaks, dropped0, p);
        dropped := dropped0;
        peaks := peaks + [p];
      } else {
        var w := Weakest();
        if peaks[w].z < p.z {
          TopReplace(all, peaks, dropped0, w, p);
          dropped := dropped0 + [peaks[w]];
          peaks := peaks[w := p];
        } else {
          TopRefuse(all, peaks, dropped0, w, p);
          dropped := dropped0 + [p];
        }
      }
    }

    /** One cell of the scan. */
    method ScanCell(hm: seq<int>, i: nat, ghost table: seq<Peak>, ghost cells: set<int>, ghost dropped0: seq<Peak>)
      returns (ghost dropped: seq<Peak>)
      requires |hm| == CELLS && IsCell(i) && cells == AcceptedCells(cfg, hm)
      requires |table| == CELLS && IsEntry(hm, table, i)
      requires TopBefore(table, cells, i, peaks, dropped0)
      modifies this
      ensures TopBefore(table, cells, i + 1, peaks, dropped)
    {
      var ok := Accept(hm, i);
      dropped := dropped0;
      if ok {
        var sum := CalcZn(hm, i);
        dropped := Insert(Peak(Row(i), Col(i), hm[i], sum, 0, 0), Entries(table, cells, i), dropped);
      } else {
        assert Entries(table, cells, i + 1) == Entries(table, cells, i);
      }
    }

    /** All cells, in scan order. */
    method ScanCells(hm: seq<int>, ghost table: seq<Peak>, ghost cells: set<int>) returns (ghost dropped: seq<Peak>)
      requires |hm| == CELLS && cells == AcceptedCells(cfg, hm) && IsTable(hm, table)
      modifies this
      ensures TopBefore(table, cells, CELLS, peaks, dropped)
    {
      peaks, dropped := [], [];
      TopOfNothing(table, cells);
      for i := 0 to CELLS
        invariant TopBefore(table, cells, i, peaks, dropped)
      {
        dropped := ScanCell(hm, i, table, cells, dropped);
      }
    }

    /** The scan keeps the twenty strongest accepted cells. */
    method DetectInRange(hm: seq<int>) returns (ghost dropped: seq<Peak>)
      requires |hm| == CELLS
      modifies this
      ensures TopOf(Accepted(cfg, hm), peaks, dropped)
    {
      dropped := ScanCells(hm, PeakTable(hm), AcceptedCells(cfg, hm));
      TopOfAll(cfg, hm, peaks, dropped);
    }

    /** Remove the peaks that fail a test. */
    method Remove(test: Peak -> bool)
      modifies this
      ensures peaks == Keep(old(peaks), test)
    {
      var rest: seq<Peak> := [];
      for k := 0 to |peaks|
        invariant rest == Keep(peaks[..k], test) && peaks == old(peaks)
      {
        assert peaks[..k + 1][..k] == peaks[..k];
        if test(peaks[k]) { rest := rest + [peaks[k]]; }
      }
      assert peaks[..|peaks|] == peaks;
      peaks := rest;
    }

    method FilterEdgeLine(line: Line)
      modifies this
      ensures peaks == EdgePass(old(peaks), line)
    {
      var m := 0;
      for k := 0 to |peaks|
        invariant m == LineMax(peaks[..k], line)
      {
        assert peaks[..k + 1][..k] == peaks[..k];
        if OnLine(line, peaks[k]) && peaks[k].z > m { m := peaks[k].z; }
      }
      assert peaks[..|peaks|] == peaks;
      if m == 0 { return; }
      Remove((p: Peak) => !(OnLine(line, p) && p.z < Cutoff(m)));
    }

    /** The four border lines, one after the other. */
    method ApplyEdgePeakFilter()
      modifies this
      ensures peaks == EdgeFiltered(old(peaks))
    {
      FilterEdgeLine(TopRow);
      FilterEdgeLine(BottomRow);
      FilterEdgeLine(LeftCol);
      FilterEdgeLine(RightCol);
    }

    method ApplyFilters()
      modifies this
      ensures peaks == Filtered(cfg, old(peaks))
    {
      if cfg.z8Filter { Remove((p: Peak) => p.z / 32 <= p.neighborSignalSum); }
      if cfg.z1Filter { Remove((p: Peak) => p.z >= cfg.threshold); }
      if cfg.edgePeakFilter { ApplyEdgePeakFilter(); }
    }

    /** Ascending by signal. */
    method SortPeaks()
      modifies this
      ensures InOrder(peaks) && multiset(peaks) == multiset(old(peaks))
    {
      peaks := Sorting.Sort(peaks, Strength);
    }

    method Cap()
      modifies this
      ensures peaks == if |old(peaks)| > MAX_PEAKS then old(peaks)[..MAX_PEAKS] else old(peaks)
    {
      if |peaks| > MAX_PEAKS { peaks := peaks[..MAX_PEAKS]; }
    }

    /** A frame: the peaks are the filtered twenty strongest accepted cells, in ascending order; the final
        cap removes nothing. */
    method Detect(hm: seq<int>) returns (ghost kept: seq<Peak>, ghost dropped: seq<Peak>)
      requires |hm| == CELLS
      modifies this
      ensures TopOf(Accepted(cfg, hm), kept, dropped)
      ensures InOrder(peaks) && multiset(peaks) == multiset(Filtered(cfg, kept))
      ensures PeakFilters.Delivers(cfg, hm, multiset(kept), multiset(peaks))
      ensures |peaks| <= MAX_PEAKS && multiset(peaks) <= multiset(Accepted(cfg, hm))
      ensures cfg.threshold > 0 && (cfg.edgeThresholdEnabled ==> cfg.edgeThreshold > 0) ==>
                Standing(hm, peaks) && (AllReach(cfg) ==> forall k :: 0 <= k < |peaks| ==> peaks[k].z >= cfg.threshold)
    {
      dropped := DetectInRange(hm);
      kept := peaks;
      ApplyFilters();
      SortPeaks();
      FrameDetected(cfg, hm, kept, dropped, peaks);
      Cap();
    }
  }
}
