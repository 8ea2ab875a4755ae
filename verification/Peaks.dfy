/** The peaks of a heat map: the asymmetric local-maximum test, what it covers, and the twenty strongest. */
module Peaks {
  import opened EngineTypes
  import opened ZoneGrid
  import opened ZoneRun
  import Sorting

  datatype Config = Config(
    threshold: int, sigTholdLimit: int, edgeThreshold: int, edgeThresholdEnabled: bool,
    z8Filter: bool, z1Filter: bool, pressureDriftFilter: bool, edgePeakFilter: bool)

  // ----- the local-maximum test -----

  /** Against a later cell of the scan a tie wins, against an earlier one it loses. */
  predicate Beats(hm: seq<int>, i: int, j: int)
    requires |hm| == CELLS && IsCell(i) && IsCell(j)
  {
    if j > i then hm[j] <= hm[i] else hm[j] < hm[i]
  }

  ghost predicate LocalMax(hm: seq<int>, i: int)
    requires |hm| == CELLS && IsCell(i)
  {
    forall j :: IsCell(j) && Adjacent(i, j) ==> Beats(hm, i, j)
  }

  /** The test never accepts two adjacent cells. */
  lemma NoAdjacentPeaks(hm: seq<int>, i: int, j: int)
    requires |hm| == CELLS && IsCell(i) && IsCell(j) && Adjacent(i, j)
    ensures !(LocalMax(hm, i) && LocalMax(hm, j))
  {
    if LocalMax(hm, i) {
      assert Beats(hm, i, j);
      assert !Beats(hm, j, i) && Adjacent(j, i);
    }
  }

  /** Detection threshold at a cell; lower bands may apply next to the left and right border and on the last row. */
  function TholdAt(cfg: Config, i: int): int {
    if cfg.edgeThresholdEnabled && (Col(i) == 1 || Col(i) == COLS - 2 || Row(i) == ROWS - 1) then cfg.edgeThreshold
    else cfg.threshold
  }

  // ----- palm presses -----

  function Gradient(hm: seq<int>, row: int, c: int): int
    requires |hm| == CELLS && 0 <= row < ROWS && 1 <= c < COLS - 1
  {
    Abs(hm[Cell(row, c + 1)] - hm[Cell(row, c - 1)])
  }

  /** Sums over the columns 1 to `c - 1` of a row. */
  function GradientSum(hm: seq<int>, row: int, c: int): int
    requires |hm| == CELLS && 0 <= row < ROWS && 1 <= c <= COLS - 1
    decreases c, row
  {
    if c == 1 then 0 else GradientSum(hm, row, c - 1) + Gradient(hm, row, c - 1)
  }

  function RowSum(hm: seq<int>, row: int, c: int): int
    requires |hm| == CELLS && 0 <= row < ROWS && 1 <= c <= COLS - 1
    decreases c, row
  {
    if c == 1 then 0 else RowSum(hm, row, c - 1) + Max(0, hm[Cell(row, c - 1)])
  }

  /** A flat row of middling signal. */
  ghost predicate Drifts(cfg: Config, hm: seq<int>, i: int)
    requires |hm| == CELLS && IsCell(i)
  {
    var (row, sig, limit) := (Row(i), hm[i], cfg.sigTholdLimit);
    && TruncDiv(limit * 3, 8) <= sig <= TruncDiv(limit * 3, 4)
    && (forall c :: 1 <= c < COLS - 1 ==> Gradient(hm, row, c) <= TruncDiv(limit, 3))
    && RowSum(hm, row, COLS - 1) >= TruncDiv(sig * 9, 2)
    && sig * 6 >= GradientSum(hm, row, COLS - 1)
  }

  ghost predicate Accepts(cfg: Config, hm: seq<int>, i: int)
    requires |hm| == CELLS && IsCell(i)
  {
    hm[i] >= TholdAt(cfg, i) && LocalMax(hm, i) && !(cfg.pressureDriftFilter && Drifts(cfg, hm, i))
  }

  // ----- every strong region has a peak -----

  /** The first strongest cell linked to `s`. */
  lemma StrongestLinked(hm: seq<int>, t: int, s: int) returns (best: int)
    requires |hm| == CELLS && IsCell(s) && hm[s] >= t
    ensures Linked(hm, t, s, best)
    ensures forall j :: Linked(hm, t, s, j) ==> j == best || Beats(hm, best, j)
  {
    JoinedSelf(Above(hm, t), s);
    best := s;
    for n := 0 to CELLS
      invariant Linked(hm, t, s, best)
      invariant forall j :: 0 <= j < n && Linked(hm, t, s, j) ==> j == best || Beats(hm, best, j)
    {
      if Linked(hm, t, s, n) && n != best && !Beats(hm, best, n) {
        best := n;
      }
    }
  }

  /** With the drift test off, every region of cells at or above some `t` that reaches the threshold (the
      border threshold as well, when that is on) contains an accepted cell. */
  lemma RegionHasPeak(cfg: Config, hm: seq<int>, t: int, s: int) returns (peak: int)
    requires |hm| == CELLS && !cfg.pressureDriftFilter
    requires IsCell(s) && hm[s] >= t && hm[s] >= cfg.threshold
    requires (cfg.edgeThresholdEnabled ==> hm[s] >= cfg.edgeThreshold)
    ensures Linked(hm, t, s, peak) && Accepts(cfg, hm, peak)
  {
    peak := StrongestLinked(hm, t, s);
    JoinedSelf(Above(hm, t), s);
    assert Linked(hm, t, s, s);
    forall j | IsCell(j) && Adjacent(peak, j) ensures Beats(hm, peak, j) {
      if hm[j] >= t {
        JoinedStep(Above(hm, t), s, peak, j);
        assert Linked(hm, t, s, j);
      }
    }
  }

  // ----- the list of accepted cells -----

  function SignalSum(hm: seq<int>, ns: seq<int>, n: nat): int
    requires |hm| == CELLS && n <= |ns| && forall k :: 0 <= k < |ns| ==> IsCell(ns[k])
  {
    if n == 0 then 0 else SignalSum(hm, ns, n - 1) + hm[ns[n - 1]]
  }

  function PeakAt(hm: seq<int>, i: int): Peak
    requires |hm| == CELLS && IsCell(i)
  {
    Peak(Row(i), Col(i), hm[i], SignalSum(hm, Ring(i), |Ring(i)|), 0, 0)
  }

  ghost function AcceptedCells(cfg: Config, hm: seq<int>): set<int>
    requires |hm| == CELLS
  {
    set i | 0 <= i < CELLS && Accepts(cfg, hm, i)
  }

  /** A peak for every cell, in its place. */
  ghost predicate Placed(table: seq<Peak>) {
    && |table| == CELLS
    && forall i :: 0 <= i < CELLS ==> OnGrid(table[i].r, table[i].c) && Cell(table[i].r, table[i].c) == i
  }

  ghost function PeakTable(hm: seq<int>): (table: seq<Peak>)
    requires |hm| == CELLS
    ensures |table| == CELLS && forall i :: 0 <= i < CELLS ==> table[i] == PeakAt(hm, i)
  {
    seq(CELLS, i requires 0 <= i < CELLS => PeakAt(hm, i))
  }

  lemma TableIsPlaced(hm: seq<int>)
    requires |hm| == CELLS
    ensures Placed(PeakTable(hm))
  {
    var table := PeakTable(hm);
    forall i | 0 <= i < CELLS ensures OnGrid(table[i].r, table[i].c) && Cell(table[i].r, table[i].c) == i {
      CellOfCoordinates(i);
    }
  }

  /** Entries of the given cells below `n`, in scan order. */
  ghost function Entries(table: seq<Peak>, cells: set<int>, n: nat): seq<Peak>
    requires n <= |table|
  {
    if n == 0 then [] else Entries(table, cells, n - 1) + if n - 1 in cells then [table[n - 1]] else []
  }

  /** All accepted peaks of a heat map, in scan order. */
  ghost function Accepted(cfg: Config, hm: seq<int>): seq<Peak>
    requires |hm| == CELLS
  {
    Entries(PeakTable(hm), AcceptedCells(cfg, hm), CELLS)
  }

  /** The peak stands for one of the cells below `n`. */
  ghost predicate StandsFor(table: seq<Peak>, cells: set<int>, p: Peak, n: nat)
    requires |table| == CELLS
  {
    OnGrid(p.r, p.c) && Cell(p.r, p.c) < n && Cell(p.r, p.c) in cells && p == table[Cell(p.r, p.c)]
  }

  lemma {:induction false} EntriesStand(table: seq<Peak>, cells: set<int>, n: nat, p: Peak)
    requires Placed(table) && n <= CELLS && p in multiset(Entries(table, cells, n))
    ensures StandsFor(table, cells, p, n)
  {
    if n > 0 && p in multiset(Entries(table, cells, n - 1)) { EntriesStand(table, cells, n - 1, p); }
  }

  lemma {:induction false} EntriesOnce(table: seq<Peak>, cells: set<int>, n: nat, p: Peak)
    requires Placed(table) && n <= CELLS
    ensures multiset(Entries(table, cells, n))[p] <= 1
  {
    if n > 0 {
      var before, last := Entries(table, cells, n - 1), table[n - 1];
      EntriesOnce(table, cells, n - 1, p);
      if p in multiset(before) {
        EntriesStand(table, cells, n - 1, p);
        assert p != last;
      }
      assert multiset(Entries(table, cells, n))
          == multiset(before) + if n - 1 in cells then multiset{last} else multiset{};
    }
  }

  lemma TwiceInList(s: seq<Peak>, i: nat, j: nat)
    requires i < j < |s| && s[i] == s[j]
    ensures multiset(s)[s[i]] >= 2
  {
    assert s == s[..j] + s[j..];
    assert s[i] in multiset(s[..j]) && s[j] in multiset(s[j..]) by {
      assert s[..j][i] == s[i] && s[j..][0] == s[j];
    }
  }

  /** Whatever is left of the accepted cells suits the zone expander; no neighbour exceeds any of them, and no two
      of them are adjacent. */
  lemma DetectedPeaksOk(cfg: Config, hm: seq<int>, peaks: seq<Peak>)
    requires |hm| == CELLS && multiset(peaks) <= multiset(Accepted(cfg, hm)) && |peaks| <= MAX_PEAKS
    requires cfg.threshold > 0 && (cfg.edgeThresholdEnabled ==> cfg.edgeThreshold > 0)
    ensures PeaksOk(hm, peaks) && forall i :: 0 <= i < |peaks| ==> Accepts(cfg, hm, PeakCell(peaks[i]))
    ensures forall i: nat {:trigger Alone(hm, peaks, i)} :: i < |peaks| ==> Alone(hm, peaks, i)
  {
    var table, cells := PeakTable(hm), AcceptedCells(cfg, hm);
    TableIsPlaced(hm);
    forall i | 0 <= i < |peaks| ensures StandsFor(table, cells, peaks[i], CELLS) {
      assert peaks[i] in multiset(peaks);
      EntriesStand(table, cells, CELLS, peaks[i]);
    }
    forall i, j | 0 <= i < j < |peaks| ensures PeakCell(peaks[i]) != PeakCell(peaks[j]) {
      if peaks[i] == peaks[j] {
        TwiceInList(peaks, i, j);
        EntriesOnce(table, cells, CELLS, peaks[i]);
      }
    }
    forall i, j | 0 <= i < |peaks| && 0 <= j < |peaks| ensures !Adjacent(PeakCell(peaks[i]), PeakCell(peaks[j])) {
      var a, b := PeakCell(peaks[i]), PeakCell(peaks[j]);
      assert LocalMax(hm, a) && LocalMax(hm, b);
      if Adjacent(a, b) { NoAdjacentPeaks(hm, a, b); }
    }
    forall i: nat | i < |peaks| ensures Alone(hm, peaks, i) {
      LocalMaxUnexceeded(hm, PeakCell(peaks[i]));
    }
  }

  lemma LocalMaxUnexceeded(hm: seq<int>, i: int)
    requires |hm| == CELLS && IsCell(i) && LocalMax(hm, i)
    ensures forall j :: IsCell(j) && Adjacent(i, j) ==> hm[j] <= hm[i]
  {
    forall j | IsCell(j) && Adjacent(i, j) ensures hm[j] <= hm[i] { assert Beats(hm, i, j); }
  }

  /** Every peak reaches the detection threshold: the Z1 filter asks for it, or no lower border threshold applies. */
  predicate AllReach(cfg: Config) {
    cfg.z1Filter || !cfg.edgeThresholdEnabled || cfg.edgeThreshold >= cfg.threshold
  }

  // ----- the twenty strongest -----

  /** `kept` are the strongest of `all`, `dropped` the rest. */
  ghost predicate TopOf(all: seq<Peak>, kept: seq<Peak>, dropped: seq<Peak>) {
    && multiset(all) == multiset(kept) + multiset(dropped)
    && |kept| <= MAX_PEAKS && (|kept| < MAX_PEAKS ==> dropped == [])
    && forall a, b :: 0 <= a < |kept| && 0 <= b < |dropped| ==> dropped[b].z <= kept[a].z
  }

  /** The same for the accepted cells before `n`. */
  ghost predicate TopBefore(table: seq<Peak>, cells: set<int>, n: int, kept: seq<Peak>, dropped: seq<Peak>) {
    0 <= n <= |table| && exists all :: TopOf(all, kept, dropped) && all == Entries(table, cells, n)
  }

  ghost predicate IsWeakest(kept: seq<Peak>, w: nat) {
    w < |kept| && forall k :: 0 <= k < |kept| ==> kept[w].z <= kept[k].z
  }

  lemma TopAppend(all: seq<Peak>, kept: seq<Peak>, dropped: seq<Peak>, p: Peak)
    requires TopOf(all, kept, dropped) && |kept| < MAX_PEAKS
    ensures TopOf(all + [p], kept + [p], dropped)
  {
  }

  lemma TopReplace(all: seq<Peak>, kept: seq<Peak>, dropped: seq<Peak>, w: nat, p: Peak)
    requires TopOf(all, kept, dropped) && |kept| == MAX_PEAKS && IsWeakest(kept, w) && kept[w].z < p.z
    ensures TopOf(all + [p], kept[w := p], dropped + [kept[w]])
  {
    assert multiset(kept[w := p]) == multiset(kept) - multiset{kept[w]} + multiset{p};
    assert kept[w] in multiset(kept);
  }

  lemma TopRefuse(all: seq<Peak>, kept: seq<Peak>, dropped: seq<Peak>, w: nat, p: Peak)
    requires TopOf(all, kept, dropped) && |kept| == MAX_PEAKS && IsWeakest(kept, w) && p.z <= kept[w].z
    ensures TopOf(all + [p], kept, dropped + [p])
  {
  }

  // ----- the filters -----

  /** The peaks that pass a test, in order. */
  function Keep(ps: seq<Peak>, test: Peak -> bool): seq<Peak> {
    if |ps| == 0 then []
    else Keep(ps[..|ps| - 1], test) + if test(ps[|ps| - 1]) then [ps[|ps| - 1]] else []
  }

  lemma {:induction false} KeepMeans(ps: seq<Peak>, test: Peak -> bool)
    ensures multiset(Keep(ps, test)) <= multiset(ps)
    ensures forall p :: multiset(Keep(ps, test))[p] == if test(p) then multiset(ps)[p] else 0
  {
    if |ps| > 0 {
      var init, last := ps[..|ps| - 1], ps[|ps| - 1];
      KeepMeans(init, test);
      assert ps == init + [last];
      assert multiset(ps) == multiset(init) + multiset{last};
    }
  }

  datatype Line = TopRow | BottomRow | LeftCol | RightCol

  predicate OnLine(line: Line, p: Peak) {
    match line
    case TopRow => p.r == 0
    case BottomRow => p.r == ROWS - 1
    case LeftCol => p.c == 0
    case RightCol => p.c == COLS - 1
  }

  /** Greatest signal on a border line, zero at least. */
  function LineMax(ps: seq<Peak>, line: Line): int {
    if |ps| == 0 then 0
    else
      var p := ps[|ps| - 1];
      var m := LineMax(ps[..|ps| - 1], line);
      if OnLine(line, p) && p.z > m then p.z else m
  }

  /** Five eighths of the line's strongest peak. */
  function Cutoff(m: int): int { m / 8 * 5 }

  function EdgePass(ps: seq<Peak>, line: Line): seq<Peak> {
    var m := LineMax(ps, line);
    if m == 0 then ps else Keep(ps, (p: Peak) => !(OnLine(line, p) && p.z < Cutoff(m)))
  }

  function EdgeFiltered(ps: seq<Peak>): seq<Peak> {
    EdgePass(EdgePass(EdgePass(EdgePass(ps, TopRow), BottomRow), LeftCol), RightCol)
  }

  function Z8Filtered(ps: seq<Peak>): seq<Peak> { Keep(ps, (p: Peak) => p.z / 32 <= p.neighborSignalSum) }

  function Z1Filtered(ps: seq<Peak>, thold: int): seq<Peak> { Keep(ps, (p: Peak) => p.z >= thold) }

  function Filtered(cfg: Config, ps: seq<Peak>): seq<Peak> {
    var a := if cfg.z8Filter then Z8Filtered(ps) else ps;
    var b := if cfg.z1Filter then Z1Filtered(a, cfg.threshold) else a;
    if cfg.edgePeakFilter then EdgeFiltered(b) else b
  }

  lemma {:induction false} LineMaxMeans(ps: seq<Peak>, line: Line)
    ensures LineMax(ps, line) >= 0
    ensures forall p :: p in multiset(ps) && OnLine(line, p) ==> p.z <= LineMax(ps, line)
    ensures LineMax(ps, line) > 0 ==> exists p :: p in multiset(ps) && OnLine(line, p) && p.z == LineMax(ps, line)
  {
    if |ps| > 0 {
      var init, last := ps[..|ps| - 1], ps[|ps| - 1];
      LineMaxMeans(init, line);
      assert ps == init + [last];
      assert last in multiset(ps);
      if LineMax(ps, line) > 0 && LineMax(ps, line) == LineMax(init, line) {
        var p :| p in multiset(init) && OnLine(line, p) && p.z == LineMax(init, line);
        assert p in multiset(ps);
      }
    }
  }

  /** A border pass removes exactly the peaks of the line below five eighths (of the eighths) of its strongest:
      each of them is outdone by a peak of the same line, and a peak that none on the line exceeds stays. */
  lemma EdgePassMeans(ps: seq<Peak>, line: Line, p: Peak)
    requires p in multiset(ps)
    ensures p !in multiset(EdgePass(ps, line)) ==>
      OnLine(line, p) && exists q :: q in multiset(ps) && OnLine(line, q) && p.z * 8 < q.z * 5
    ensures (forall q :: q in multiset(ps) ==> q.z <= p.z) ==> p in multiset(EdgePass(ps, line))
    ensures multiset(EdgePass(ps, line)) <= multiset(ps)
  {
    LineMaxMeans(ps, line);
    var m := LineMax(ps, line);
    if m != 0 {
      KeepMeans(ps, (p: Peak) => !(OnLine(line, p) && p.z < Cutoff(m)));
    }
  }

  /** The strongest peak survives the border filter. */
  lemma StrongestSurvives(ps: seq<Peak>, p: Peak)
    requires p in multiset(ps) && forall q :: q in multiset(ps) ==> q.z <= p.z
    ensures p in multiset(EdgeFiltered(ps)) && multiset(EdgeFiltered(ps)) <= multiset(ps)
  {
    var a := EdgePass(ps, TopRow);
    EdgePassMeans(ps, TopRow, p);
    var b := EdgePass(a, BottomRow);
    EdgePassMeans(a, BottomRow, p);
    var c := EdgePass(b, LeftCol);
    EdgePassMeans(b, LeftCol, p);
    EdgePassMeans(c, RightCol, p);
  }

  lemma EdgePassShrinks(ps: seq<Peak>, line: Line)
    ensures multiset(EdgePass(ps, line)) <= multiset(ps)
  {
    var m := LineMax(ps, line);
    KeepMeans(ps, (p: Peak) => !(OnLine(line, p) && p.z < Cutoff(m)));
  }

  lemma EdgeFilterShrinks(ps: seq<Peak>)
    ensures multiset(EdgeFiltered(ps)) <= multiset(ps)
  {
    var a := EdgePass(ps, TopRow);
    EdgePassShrinks(ps, TopRow);
    var b := EdgePass(a, BottomRow);
    EdgePassShrinks(a, BottomRow);
    var c := EdgePass(b, LeftCol);
    EdgePassShrinks(b, LeftCol);
    EdgePassShrinks(c, RightCol);
  }

  /** The filters only remove; what the Z1 filter leaves reaches the threshold. */
  lemma FilteredMeans(cfg: Config, ps: seq<Peak>)
    ensures multiset(Filtered(cfg, ps)) <= multiset(ps)
    ensures cfg.z1Filter ==> forall p :: p in multiset(Filtered(cfg, ps)) ==> p.z >= cfg.threshold
  {
    KeepMeans(ps, (p: Peak) => p.z / 32 <= p.neighborSignalSum);
    var a := if cfg.z8Filter then Z8Filtered(ps) else ps;
    assert multiset(a) <= multiset(ps);
    KeepMeans(a, (p: Peak) => p.z >= cfg.threshold);
    var b := if cfg.z1Filter then Z1Filtered(a, cfg.threshold) else a;
    assert multiset(b) <= multiset(a);
    EdgeFilterShrinks(b);
  }

  /** Sort key of the final order. */
  function Strength(p: Peak): int { p.z }

  ghost predicate InOrder(ps: seq<Peak>) { Sorting.Ascending(ps, Strength) }
}
