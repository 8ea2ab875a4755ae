/** The detector's filters and its palm test, said of the heat map: which of the strongest cells are delivered as
    peaks. */
module PeakFilters {
  import opened EngineTypes
  import opened ZoneGrid
  import opened ZoneRun
  import opened Peaks
  import opened CellSums

  // ----- the neighbours' signal -----

  ghost function AroundSum(hm: seq<int>, i: int): int
    requires |hm| == CELLS
  {
    SetSum(hm, Around(i), CELLS)
  }

  lemma {:induction false} SignalIsListSum(hm: seq<int>, ns: seq<int>, n: nat)
    requires |hm| == CELLS && n <= |ns| && forall k :: 0 <= k < |ns| ==> IsCell(ns[k])
    ensures SignalSum(hm, ns, n) == ListSum(hm, ns, n)
  {
    if n > 0 { SignalIsListSum(hm, ns, n - 1); }
  }

  /** An accepted peak carries the signal of its cell and of the cells around it. */
  ghost predicate Measured(hm: seq<int>, p: Peak)
    requires |hm| == CELLS
  {
    OnGrid(p.r, p.c) && p.z == hm[Cell(p.r, p.c)] && p.neighborSignalSum == AroundSum(hm, Cell(p.r, p.c))
  }

  lemma PeakIsMeasured(hm: seq<int>, i: int)
    requires |hm| == CELLS && IsCell(i)
    ensures Measured(hm, PeakAt(hm, i))
  {
    CellOfCoordinates(i);
    RingIsAround(i);
    SignalIsListSum(hm, Ring(i), |Ring(i)|);
    ListSumIsSetSum(hm, Ring(i), |Ring(i)|);
  }

  lemma AcceptedIsMeasured(cfg: Config, hm: seq<int>, p: Peak)
    requires |hm| == CELLS && p in multiset(Accepted(cfg, hm))
    ensures Measured(hm, p)
  {
    TableIsPlaced(hm);
    EntriesStand(PeakTable(hm), AcceptedCells(cfg, hm), CELLS, p);
    PeakIsMeasured(hm, Cell(p.r, p.c));
  }

  // ----- the border passes -----

  ghost predicate SameBorder(p: Peak, q: Peak) {
    (p.r == q.r && (p.r == 0 || p.r == 39)) || (p.c == q.c && (p.c == 0 || p.c == 59))
  }

  ghost predicate AtCorner(q: Peak) { (q.r == 0 || q.r == 39) && (q.c == 0 || q.c == 59) }

  /** `p` is below five eighths of `q`, in whole eighths. */
  ghost predicate Dwarfed(p: Peak, q: Peak) { q.z > 0 && p.z < q.z / 8 * 5 }

  lemma EighthsRise(a: int, b: int)
    requires a <= b
    ensures a / 8 * 5 <= b / 8 * 5
  {
  }

  /** A border pass removes exactly the peaks of its line below five eighths of some peak of the line. */
  lemma EdgePassIff(ps: seq<Peak>, line: Line, p: Peak)
    requires p in multiset(ps)
    ensures p in multiset(EdgePass(ps, line)) <==>
      !(OnLine(line, p) && exists q :: q in multiset(ps) && OnLine(line, q) && Dwarfed(p, q))
  {
    LineMaxMeans(ps, line);
    var m := LineMax(ps, line);
    if m != 0 {
      KeepMeans(ps, (p: Peak) => !(OnLine(line, p) && p.z < Cutoff(m)));
      var top :| top in multiset(ps) && OnLine(line, top) && top.z == m;
      forall q | q in multiset(ps) && OnLine(line, q) && Dwarfed(p, q) ensures p.z < Cutoff(m) {
        EighthsRise(q.z, m);
      }
      assert p.z < Cutoff(m) ==> Dwarfed(p, top);
    }
  }

  /** One pass keeps what is off its line, and of the line what nothing on it dwarfs. */
  ghost predicate PassMeans(ps: multiset<Peak>, line: Line, rest: multiset<Peak>) {
    && rest <= ps
    && forall p :: p in ps ==>
         (p in rest <==> !(OnLine(line, p) && exists q :: q in ps && OnLine(line, q) && Dwarfed(p, q)))
  }

  lemma EdgePassIsPass(ps: seq<Peak>, line: Line)
    ensures PassMeans(multiset(ps), line, multiset(EdgePass(ps, line)))
  {
    EdgePassShrinks(ps, line);
    forall p | p in multiset(ps)
      ensures p in multiset(EdgePass(ps, line)) <==>
        !(OnLine(line, p) && exists q :: q in multiset(ps) && OnLine(line, q) && Dwarfed(p, q))
    {
      EdgePassIff(ps, line, p);
    }
  }

  /** What the four passes together leave out was dwarfed by a peak of the same border; and a peak that is dwarfed by
      one of its border away from the corners is left out. */
  ghost predicate BordersMean(ps: multiset<Peak>, rest: multiset<Peak>) {
    && rest <= ps
    && (forall p :: p in ps && p !in rest ==> exists q :: q in ps && SameBorder(p, q) && Dwarfed(p, q))
    && (forall p, q :: p in ps && q in ps && SameBorder(p, q) && !AtCorner(q) && Dwarfed(p, q) ==> p !in rest)
  }

  lemma PassDrops(ps: multiset<Peak>, line: Line, rest: multiset<Peak>, p: Peak, q: Peak)
    requires PassMeans(ps, line, rest) && q in ps && OnLine(line, p) && OnLine(line, q) && Dwarfed(p, q)
    ensures p !in rest
  {
  }

  lemma PassCause(ps: multiset<Peak>, line: Line, rest: multiset<Peak>, p: Peak) returns (q: Peak)
    requires PassMeans(ps, line, rest) && p in ps && p !in rest
    ensures q in ps && SameBorder(p, q) && Dwarfed(p, q)
  {
    q :| q in ps && OnLine(line, q) && Dwarfed(p, q);
  }

  lemma PassSpares(ps: multiset<Peak>, line: Line, rest: multiset<Peak>, q: Peak)
    requires PassMeans(ps, line, rest) && q in ps && !OnLine(line, q)
    ensures q in rest
  {
  }

  lemma BorderCause(a: multiset<Peak>, b: multiset<Peak>, c: multiset<Peak>, d: multiset<Peak>, e: multiset<Peak>,
                    p: Peak)
    returns (q: Peak)
    requires PassMeans(a, TopRow, b) && PassMeans(b, BottomRow, c)
    requires PassMeans(c, LeftCol, d) && PassMeans(d, RightCol, e)
    requires p in a && p !in e
    ensures q in a && SameBorder(p, q) && Dwarfed(p, q)
  {
    if p !in b {
      q := PassCause(a, TopRow, b, p);
    } else if p !in c {
      q := PassCause(b, BottomRow, c, p);
    } else if p !in d {
      q := PassCause(c, LeftCol, d, p);
    } else {
      q := PassCause(d, RightCol, e, p);
    }
  }

  lemma BorderDrops(a: multiset<Peak>, b: multiset<Peak>, c: multiset<Peak>, d: multiset<Peak>, e: multiset<Peak>,
                    p: Peak, q: Peak)
    requires PassMeans(a, TopRow, b) && PassMeans(b, BottomRow, c)
    requires PassMeans(c, LeftCol, d) && PassMeans(d, RightCol, e)
    requires q in a && SameBorder(p, q) && !AtCorner(q) && Dwarfed(p, q)
    ensures p !in e
  {
    if OnLine(TopRow, p) && OnLine(TopRow, q) {
      PassDrops(a, TopRow, b, p, q);
    } else {
      PassSpares(a, TopRow, b, q);
      if OnLine(BottomRow, p) && OnLine(BottomRow, q) {
        PassDrops(b, BottomRow, c, p, q);
      } else {
        PassSpares(b, BottomRow, c, q);
        if OnLine(LeftCol, p) && OnLine(LeftCol, q) {
          PassDrops(c, LeftCol, d, p, q);
        } else {
          PassSpares(c, LeftCol, d, q);
          PassDrops(d, RightCol, e, p, q);
        }
      }
    }
  }

  lemma EdgeFilterMeans(ps: seq<Peak>)
    ensures BordersMean(multiset(ps), multiset(EdgeFiltered(ps)))
  {
    var b := EdgePass(ps, TopRow);
    var c := EdgePass(b, BottomRow);
    var d := EdgePass(c, LeftCol);
    var e := EdgePass(d, RightCol);
    EdgePassIsPass(ps, TopRow);
    EdgePassIsPass(b, BottomRow);
    EdgePassIsPass(c, LeftCol);
    EdgePassIsPass(d, RightCol);
    BorderFilter(multiset(ps), multiset(b), multiset(c), multiset(d), multiset(e));
  }

  lemma BorderFilter(a: multiset<Peak>, b: multiset<Peak>, c: multiset<Peak>, d: multiset<Peak>, e: multiset<Peak>)
    requires PassMeans(a, TopRow, b) && PassMeans(b, BottomRow, c)
    requires PassMeans(c, LeftCol, d) && PassMeans(d, RightCol, e)
    ensures BordersMean(a, e)
  {
    forall p | p in a && p !in e ensures exists q :: q in a && SameBorder(p, q) && Dwarfed(p, q) {
      var q := BorderCause(a, b, c, d, e, p);
    }
    forall p, q | p in a && q in a && SameBorder(p, q) && !AtCorner(q) && Dwarfed(p, q) ensures p !in e {
      BorderDrops(a, b, c, d, e, p, q);
    }
  }

  // ----- what is delivered -----

  /** Not an isolated spike, and strong enough where the filters ask for it. */
  ghost predicate Sound(cfg: Config, hm: seq<int>, p: Peak)
    requires |hm| == CELLS
  {
    && OnGrid(p.r, p.c)
    && (cfg.z8Filter ==> hm[Cell(p.r, p.c)] / 32 <= AroundSum(hm, Cell(p.r, p.c)))
    && (cfg.z1Filter ==> hm[Cell(p.r, p.c)] >= cfg.threshold)
  }

  /** A sound peak on the border of `p` dwarfs it. */
  ghost predicate Outdone(cfg: Config, hm: seq<int>, kept: multiset<Peak>, p: Peak, q: Peak)
    requires |hm| == CELLS
  {
    q in kept && Sound(cfg, hm, q) && SameBorder(p, q) && Dwarfed(p, q)
  }

  /** Of the strongest cells exactly the sound ones are delivered, except that the border filter, when it is on, takes
      those a peak of their border dwarfs. */
  ghost predicate Delivers(cfg: Config, hm: seq<int>, kept: multiset<Peak>, peaks: multiset<Peak>)
    requires |hm| == CELLS
  {
    && (forall p :: p in peaks ==> p in kept && Measured(hm, p) && Sound(cfg, hm, p))
    && (forall p :: p in kept && p !in peaks && Sound(cfg, hm, p) ==>
          cfg.edgePeakFilter && exists q :: Outdone(cfg, hm, kept, p, q))
    && (cfg.edgePeakFilter ==> forall p, q :: Outdone(cfg, hm, kept, p, q) && !AtCorner(q) ==> p !in peaks)
  }

  lemma Z8Means(ps: seq<Peak>)
    ensures forall p :: p in multiset(Z8Filtered(ps)) <==> p in multiset(ps) && p.z / 32 <= p.neighborSignalSum
  {
    KeepMeans(ps, (p: Peak) => p.z / 32 <= p.neighborSignalSum);
  }

  lemma Z1Means(ps: seq<Peak>, thold: int)
    ensures forall p :: p in multiset(Z1Filtered(ps, thold)) <==> p in multiset(ps) && p.z >= thold
  {
    KeepMeans(ps, (p: Peak) => p.z >= thold);
  }

  /** The first two filters keep exactly the sound peaks. */
  lemma SoundFiltered(cfg: Config, hm: seq<int>, ps: seq<Peak>) returns (rest: seq<Peak>)
    requires |hm| == CELLS && forall p :: p in multiset(ps) ==> Measured(hm, p)
    ensures Filtered(cfg, ps) == if cfg.edgePeakFilter then EdgeFiltered(rest) else rest
    ensures forall p :: p in multiset(rest) <==> p in multiset(ps) && Sound(cfg, hm, p)
  {
    var a := if cfg.z8Filter then Z8Filtered(ps) else ps;
    Z8Means(ps);
    Z1Means(a, cfg.threshold);
    rest := if cfg.z1Filter then Z1Filtered(a, cfg.threshold) else a;
  }

  lemma DeliversBy(cfg: Config, hm: seq<int>, kept: multiset<Peak>, rest: multiset<Peak>, peaks: multiset<Peak>)
    requires |hm| == CELLS && forall p :: p in kept ==> Measured(hm, p)
    requires forall p :: p in rest <==> p in kept && Sound(cfg, hm, p)
    requires if cfg.edgePeakFilter then BordersMean(rest, peaks) else peaks == rest
    ensures Delivers(cfg, hm, kept, peaks)
  {
    forall p | p in kept && p !in peaks && Sound(cfg, hm, p)
      ensures cfg.edgePeakFilter && exists q :: Outdone(cfg, hm, kept, p, q)
    {
      assert p in rest;
      var q :| q in rest && SameBorder(p, q) && Dwarfed(p, q);
      assert Outdone(cfg, hm, kept, p, q);
    }
    forall p, q | cfg.edgePeakFilter && Outdone(cfg, hm, kept, p, q) && !AtCorner(q) ensures p !in peaks {
      assert q in rest && (p in peaks ==> p in rest);
    }
  }

  /** The filtered peaks of a frame, said of its heat map. */
  lemma DeliveredPeaks(cfg: Config, hm: seq<int>, kept: seq<Peak>)
    requires |hm| == CELLS && multiset(kept) <= multiset(Accepted(cfg, hm))
    ensures Delivers(cfg, hm, multiset(kept), multiset(Filtered(cfg, kept)))
  {
    forall p | p in multiset(kept) ensures Measured(hm, p) {
      AcceptedIsMeasured(cfg, hm, p);
    }
    var rest := SoundFiltered(cfg, hm, kept);
    if cfg.edgePeakFilter { EdgeFilterMeans(rest); }
    DeliversBy(cfg, hm, multiset(kept), multiset(rest), multiset(Filtered(cfg, kept)));
  }

  // ----- the palm test -----

  /** Columns away from the left and right border. */
  ghost function Inside(row: int): set<int> {
    set j | 0 <= j < CELLS && Row(j) == row && 1 <= Col(j) <= 58
  }

  /** How much the signal changes across a cell along its row; zero at the ends. */
  ghost function Slopes(hm: seq<int>): (v: seq<int>)
    requires |hm| == CELLS
    ensures |v| == CELLS && forall i :: 0 <= i < CELLS ==>
      v[i] == if Col(i) == 0 || Col(i) == 59 then 0 else if hm[i + 1] >= hm[i - 1] then hm[i + 1] - hm[i - 1]
              else hm[i - 1] - hm[i + 1]
  {
    seq(CELLS, i requires 0 <= i < CELLS =>
      if Col(i) == 0 || Col(i) == 59 then 0 else if hm[i + 1] >= hm[i - 1] then hm[i + 1] - hm[i - 1]
      else hm[i - 1] - hm[i + 1])
  }

  /** The cells of a row from column 1 up to, not including, column `c`. */
  ghost function Stretch(row: int, c: int): set<int> {
    set j | 0 <= j < CELLS && Row(j) == row && 1 <= Col(j) < c
  }

  lemma StretchGrows(row: int, c: int)
    requires 0 <= row < ROWS && 1 <= c < COLS - 1
    ensures Stretch(row, c + 1) == Stretch(row, c) + {Cell(row, c)} && Cell(row, c) !in Stretch(row, c)
  {
    forall j | j in Stretch(row, c + 1) ensures j in Stretch(row, c) + {Cell(row, c)} {
      CellOfCoordinates(j);
    }
  }

  lemma {:induction false} RowSums(hm: seq<int>, row: int, c: int)
    requires |hm| == CELLS && 0 <= row < ROWS && 1 <= c <= COLS - 1
    ensures RowSum(hm, row, c) == SetSum(Positive(hm), Stretch(row, c), CELLS)
    ensures GradientSum(hm, row, c) == SetSum(Slopes(hm), Stretch(row, c), CELLS)
  {
    if c == 1 {
      assert Stretch(row, 1) == {};
      SetSumNothing(Positive(hm), CELLS);
      SetSumNothing(Slopes(hm), CELLS);
    } else {
      RowSums(hm, row, c - 1);
      StretchGrows(row, c - 1);
      SetSumAdd(Positive(hm), Stretch(row, c - 1), Cell(row, c - 1), CELLS);
      SetSumAdd(Slopes(hm), Stretch(row, c - 1), Cell(row, c - 1), CELLS);
    }
  }

  /** A cell looks like part of a palm exactly when its signal is between three and six eighths of the limit, no step
      across a cell of its row exceeds a third of the limit, the row carries at least four and a half times its signal
      and changes by no more than six times its signal in all. */
  ghost predicate PalmRow(hm: seq<int>, i: int, limit: int)
    requires |hm| == CELLS && IsCell(i)
  {
    && 3 * limit < 8 * hm[i] + 8 && 4 * hm[i] <= 3 * limit
    && (forall j :: j in Inside(Row(i)) ==> 3 * Slopes(hm)[j] <= limit)
    && 9 * hm[i] < 2 * SetSum(Positive(hm), Inside(Row(i)), CELLS) + 2
    && SetSum(Slopes(hm), Inside(Row(i)), CELLS) <= 6 * hm[i]
  }

  lemma StepsAgree(hm: seq<int>, row: int, t: int)
    requires |hm| == CELLS && 0 <= row < ROWS
    ensures (forall c :: 1 <= c < COLS - 1 ==> Gradient(hm, row, c) <= t) <==>
            (forall j :: j in Inside(row) ==> Slopes(hm)[j] <= t)
  {
    forall j | j in Inside(row) ensures Slopes(hm)[j] == Gradient(hm, row, Col(j)) {
      CellOfCoordinates(j);
    }
    forall c | 1 <= c < COLS - 1
      ensures Gradient(hm, row, c) == Slopes(hm)[Cell(row, c)] && Cell(row, c) in Inside(row)
    {
      CellOfCoordinates(Cell(row, c));
    }
  }

  lemma QuotientsMean(limit: int, sig: int, step: int, sum: int)
    requires limit >= 0
    ensures TruncDiv(limit * 3, 8) <= sig <==> 3 * limit < 8 * sig + 8
    ensures sig <= TruncDiv(limit * 3, 4) <==> 4 * sig <= 3 * limit
    ensures step <= TruncDiv(limit, 3) <==> 3 * step <= limit
    ensures sig >= 0 ==> (sum >= TruncDiv(sig * 9, 2) <==> 9 * sig < 2 * sum + 2)
  {
  }

  lemma DriftMeans(cfg: Config, hm: seq<int>, i: int)
    requires |hm| == CELLS && IsCell(i) && cfg.sigTholdLimit >= 0
    ensures Drifts(cfg, hm, i) <==> PalmRow(hm, i, cfg.sigTholdLimit)
  {
    var row, limit := Row(i), cfg.sigTholdLimit;
    RowSums(hm, row, COLS - 1);
    assert Stretch(row, COLS - 1) == Inside(row);
    StepsAgree(hm, row, TruncDiv(limit, 3));
    QuotientsMean(limit, hm[i], 0, RowSum(hm, row, COLS - 1));
    forall j | j in Inside(row) ensures Slopes(hm)[j] <= TruncDiv(limit, 3) <==> 3 * Slopes(hm)[j] <= limit {
      QuotientsMean(limit, hm[i], Slopes(hm)[j], 0);
    }
  }

  // ----- which cells are accepted -----

  /** The threshold that applies at a cell: another one next to the left and right border and on the last row. */
  ghost predicate Reaches(cfg: Config, hm: seq<int>, i: int)
    requires |hm| == CELLS && IsCell(i)
  {
    if cfg.edgeThresholdEnabled && (Col(i) in {1, 58} || Row(i) == 39) then hm[i] >= cfg.edgeThreshold
    else hm[i] >= cfg.threshold
  }

  /** No cell around is stronger, and none that the scan met before is as strong. */
  ghost predicate Tops(hm: seq<int>, i: int)
    requires |hm| == CELLS && IsCell(i)
  {
    forall j :: j in Around(i) ==> hm[j] <= hm[i] && (hm[j] == hm[i] ==> i < j)
  }

  /** A cell is accepted exactly when it reaches its threshold, tops the cells around it, and is not taken for a palm.
      */
  lemma AcceptsIff(cfg: Config, hm: seq<int>, i: int)
    requires |hm| == CELLS && IsCell(i) && cfg.sigTholdLimit >= 0
    ensures Accepts(cfg, hm, i) <==>
      Reaches(cfg, hm, i) && Tops(hm, i) && !(cfg.pressureDriftFilter && PalmRow(hm, i, cfg.sigTholdLimit))
  {
    DriftMeans(cfg, hm, i);
    assert LocalMax(hm, i) <==> Tops(hm, i) by {
      forall j | j in Around(i) && LocalMax(hm, i) ensures Beats(hm, i, j) { assert Adjacent(i, j); }
      forall j | IsCell(j) && Adjacent(i, j) && Tops(hm, i) ensures Beats(hm, i, j) { assert j in Around(i); }
    }
  }
}
