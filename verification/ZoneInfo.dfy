/** What is accumulated about a zone pixel by pixel: centroid sums, border sums and the bounding box. */
module ZoneInfo {
  import opened EngineTypes
  import opened ZoneGrid

  /** A marked pixel: at least the zone threshold (core), or positive but below it. */
  datatype Pixel = Pixel(cell: int, sig: int, core: bool)

  datatype ZoneKind = NormalFinger | FatFinger | MultiFinger

  datatype Unit = Unit(
    signalSum: int, weightedColSum: int, weightedRowSum: int, weightTotal: int, area: int,
    edgeArea: int, edgeSignalSum: int, overlap: bool, kind: ZoneKind,
    peakCol: int, peakRow: int, peakSig: int, peakIndices: seq<int>)

  const NO_UNIT := Unit(0, 0, 0, 0, 0, 0, 0, false, NormalFinger, 0, 0, 0, [])

  datatype EdgeInfo = EdgeInfo(
    outerColSigSum: int, innerColSigSum: int, outerRowSigSum: int, innerRowSigSum: int,
    outerColMax: int, innerColMax: int, outerRowMax: int, innerRowMax: int,
    minCol: int, maxCol: int, minRow: int, maxRow: int,
    touchesBorder: bool, nearBorder: bool)

  const NO_EDGE := EdgeInfo(0, 0, 0, 0, 0, 0, 0, 0, 255, 0, 255, 0, false, false)

  const COL_MAX: int := 59
  const ROW_MAX: int := 39

  // ----- the sums, over a list of pixels -----

  ghost function Cells(ps: seq<Pixel>): (s: seq<int>)
    ensures |s| == |ps| && forall k :: 0 <= k < |ps| ==> s[k] == ps[k].cell
  {
    seq(|ps|, k requires 0 <= k < |ps| => ps[k].cell)
  }

  ghost function CoreCells(ps: seq<Pixel>): seq<int> {
    if |ps| == 0 then []
    else CoreCells(ps[..|ps| - 1]) + if ps[|ps| - 1].core then [ps[|ps| - 1].cell] else []
  }

  /** Signal of the core pixels, weighted. */
  datatype Weight = ByOne | ByCol | ByRow

  function Factor(w: Weight, cell: int): int {
    match w case ByOne => 1 case ByCol => Col(cell) * 128 case ByRow => Row(cell) * 128
  }

  ghost function CoreSum(ps: seq<Pixel>, w: Weight): int {
    if |ps| == 0 then 0
    else CoreSum(ps[..|ps| - 1], w) + if ps[|ps| - 1].core then Factor(w, ps[|ps| - 1].cell) * ps[|ps| - 1].sig else 0
  }

  /** The bands of the grid border watched for edge compensation. */
  datatype Band = OuterCol | InnerCol | OuterRow | InnerRow

  predicate InBand(b: Band, cell: int) {
    match b
    case OuterCol => Col(cell) == 0 || Col(cell) == COL_MAX
    case InnerCol => Col(cell) == 1 || Col(cell) == COL_MAX - 1
    case OuterRow => Row(cell) == 0 || Row(cell) == ROW_MAX
    case InnerRow => Row(cell) == 1 || Row(cell) == ROW_MAX - 1
  }

  predicate OnBorder(cell: int) { InBand(OuterCol, cell) || InBand(OuterRow, cell) }

  /** Within two cells of the border. */
  predicate NearBorder(cell: int) { OnBorder(cell) || InBand(InnerCol, cell) || InBand(InnerRow, cell) }

  ghost function BandSum(ps: seq<Pixel>, b: Band): int {
    if |ps| == 0 then 0
    else BandSum(ps[..|ps| - 1], b) + if InBand(b, ps[|ps| - 1].cell) then ps[|ps| - 1].sig else 0
  }

  ghost function BandMax(ps: seq<Pixel>, b: Band): int {
    if |ps| == 0 then 0
    else
      var p := ps[|ps| - 1];
      var m := BandMax(ps[..|ps| - 1], b);
      if p.core && InBand(b, p.cell) then Max(m, p.sig) else m
  }

  ghost function EdgeCount(ps: seq<Pixel>): int {
    if |ps| == 0 then 0 else EdgeCount(ps[..|ps| - 1]) + if ps[|ps| - 1].core then 0 else 1
  }

  ghost function EdgeSum(ps: seq<Pixel>): int {
    if |ps| == 0 then 0 else EdgeSum(ps[..|ps| - 1]) + if ps[|ps| - 1].core then 0 else ps[|ps| - 1].sig
  }

  /** The unit holds exactly the sums of the marked pixels (core signals are positive), the weighted ones as far as
      32 bits reach. */
  ghost predicate Accumulates(u: Unit, ps: seq<Pixel>) {
    && u.area == |CoreCells(ps)|
    && u.signalSum == u.weightTotal == CoreSum(ps, ByOne)
    && u.weightedColSum == ToWord(CoreSum(ps, ByCol))
    && u.weightedRowSum == ToWord(CoreSum(ps, ByRow))
    && u.edgeArea == EdgeCount(ps) && u.edgeSignalSum == EdgeSum(ps)
  }

  datatype Axis = Across | Down

  function Coord(a: Axis, cell: int): int { if a == Across then Col(cell) else Row(cell) }

  /** Bounds of the listed core cells along an axis, from the initial 255 and 0. */
  ghost function Low(cells: seq<int>, a: Axis): int {
    if |cells| == 0 then 255 else Min(Low(cells[..|cells| - 1], a), Coord(a, cells[|cells| - 1]))
  }

  ghost function High(cells: seq<int>, a: Axis): int {
    if |cells| == 0 then 0 else Max(High(cells[..|cells| - 1], a), Coord(a, cells[|cells| - 1]))
  }

  /** The bounds are exact: every cell lies between them and each is attained. */
  lemma {:induction false} BoundsAreExact(cells: seq<int>, a: Axis)
    requires |cells| > 0 && forall k :: 0 <= k < |cells| ==> IsCell(cells[k])
    ensures forall k :: 0 <= k < |cells| ==> Low(cells, a) <= Coord(a, cells[k]) <= High(cells, a)
    ensures exists k :: 0 <= k < |cells| && Coord(a, cells[k]) == Low(cells, a)
    ensures exists k :: 0 <= k < |cells| && Coord(a, cells[k]) == High(cells, a)
  {
    var n := |cells| - 1;
    var init := cells[..n];
    assert 0 <= Coord(a, cells[n]) <= 59;
    if n == 0 {
      assert init == [];
    } else {
      BoundsAreExact(init, a);
      var i :| 0 <= i < n && Coord(a, init[i]) == Low(init, a);
      var j :| 0 <= j < n && Coord(a, init[j]) == High(init, a);
      assert cells[i] == init[i] && cells[j] == init[j];
      assert Coord(a, cells[if Low(cells, a) == Low(init, a) then i else n]) == Low(cells, a);
      assert Coord(a, cells[if High(cells, a) == High(init, a) then j else n]) == High(cells, a);
      forall k | 0 <= k < |cells| ensures Low(cells, a) <= Coord(a, cells[k]) <= High(cells, a) {
        if k < n { assert init[k] == cells[k]; }
      }
    }
  }

  ghost predicate DescribesCols(e: EdgeInfo, ps: seq<Pixel>) {
    && e.outerColSigSum == BandSum(ps, OuterCol) && e.innerColSigSum == BandSum(ps, InnerCol)
    && e.outerColMax == BandMax(ps, OuterCol) && e.innerColMax == BandMax(ps, InnerCol)
  }

  ghost predicate DescribesRows(e: EdgeInfo, ps: seq<Pixel>) {
    && e.outerRowSigSum == BandSum(ps, OuterRow) && e.innerRowSigSum == BandSum(ps, InnerRow)
    && e.outerRowMax == BandMax(ps, OuterRow) && e.innerRowMax == BandMax(ps, InnerRow)
  }

  ghost predicate DescribesBox(e: EdgeInfo, ps: seq<Pixel>) {
    && e.minCol == Low(CoreCells(ps), Across) && e.maxCol == High(CoreCells(ps), Across)
    && e.minRow == Low(CoreCells(ps), Down) && e.maxRow == High(CoreCells(ps), Down)
  }

  ghost predicate Describes(e: EdgeInfo, ps: seq<Pixel>) {
    DescribesCols(e, ps) && DescribesRows(e, ps) && DescribesBox(e, ps)
  }

  // ----- the accumulators -----

  /** One more core pixel for the centroid. */
  method AddPixel(u0: Unit, cell: int, sig: int, ghost ps: seq<Pixel>) returns (u: Unit)
    requires Accumulates(u0, ps) && sig > 0
    ensures Accumulates(u, ps + [Pixel(cell, sig, true)])
    ensures u.overlap == u0.overlap && u.peakIndices == u0.peakIndices && u.kind == u0.kind
    ensures u.peakCol == u0.peakCol && u.peakRow == u0.peakRow && u.peakSig == u0.peakSig
  {
    u := u0.(area := u0.area + 1, signalSum := u0.signalSum + sig);
    if sig > 0 {
      WordAdd(CoreSum(ps, ByCol), Col(cell) * 128 * sig);
      WordAdd(CoreSum(ps, ByRow), Row(cell) * 128 * sig);
      u := u.(weightedColSum := ToWord(u.weightedColSum + Col(cell) * 128 * sig),
              weightedRowSum := ToWord(u.weightedRowSum + Row(cell) * 128 * sig),
              weightTotal := u.weightTotal + sig);
    }
  }

  /** One more edge pixel. */
  method AddEdgePixel(u0: Unit, cell: int, sig: int, ghost ps: seq<Pixel>) returns (u: Unit)
    requires Accumulates(u0, ps)
    ensures Accumulates(u, ps + [Pixel(cell, sig, false)])
    ensures u.overlap == u0.overlap && u.peakIndices == u0.peakIndices && u.kind == u0.kind
    ensures u.peakCol == u0.peakCol && u.peakRow == u0.peakRow && u.peakSig == u0.peakSig
  {
    u := u0.(edgeArea := u0.edgeArea + 1, edgeSignalSum := u0.edgeSignalSum + sig);
  }

  /** Column bands. */
  method UpdateCols(e0: EdgeInfo, cell: int, sig: int, core: bool, ghost ps: seq<Pixel>) returns (e: EdgeInfo)
    requires DescribesCols(e0, ps)
    ensures DescribesCols(e, ps + [Pixel(cell, sig, core)])
    ensures e == e0.(outerColSigSum := e.outerColSigSum, innerColSigSum := e.innerColSigSum,
                     outerColMax := e.outerColMax, innerColMax := e.innerColMax)
  {
    var col := Col(cell);
    e := e0;
    if col == 0 || col == COL_MAX {
      e := e.(outerColSigSum := e.outerColSigSum + sig);
      if core { e := e.(outerColMax := Max(e.outerColMax, sig)); }
    } else if col == 1 || col == COL_MAX - 1 {
      e := e.(innerColSigSum := e.innerColSigSum + sig);
      if core { e := e.(innerColMax := Max(e.innerColMax, sig)); }
    }
  }

  /** Row bands. */
  method UpdateRows(e0: EdgeInfo, cell: int, sig: int, core: bool, ghost ps: seq<Pixel>) returns (e: EdgeInfo)
    requires DescribesRows(e0, ps)
    ensures DescribesRows(e, ps + [Pixel(cell, sig, core)])
    ensures e == e0.(outerRowSigSum := e.outerRowSigSum, innerRowSigSum := e.innerRowSigSum,
                     outerRowMax := e.outerRowMax, innerRowMax := e.innerRowMax)
  {
    var row := Row(cell);
    e := e0;
    if row == 0 || row == ROW_MAX {
      e := e.(outerRowSigSum := e.outerRowSigSum + sig);
      if core { e := e.(outerRowMax := Max(e.outerRowMax, sig)); }
    } else if row == 1 || row == ROW_MAX - 1 {
      e := e.(innerRowSigSum := e.innerRowSigSum + sig);
      if core { e := e.(innerRowMax := Max(e.innerRowMax, sig)); }
    }
  }

  lemma CoreCellsGrow(ps: seq<Pixel>, p: Pixel)
    ensures CoreCells(ps + [p]) == if p.core then CoreCells(ps) + [p.cell] else CoreCells(ps)
  {
    assert (ps + [p])[..|ps|] == ps;
  }

  /** Border sums for every marked pixel; border maxima and the bounding box for core pixels. */
  method UpdateEdgeInfo(e0: EdgeInfo, cell: int, sig: int, core: bool, ghost ps: seq<Pixel>) returns (e: EdgeInfo)
    requires Describes(e0, ps)
    ensures Describes(e, ps + [Pixel(cell, sig, core)])
  {
    e := UpdateCols(e0, cell, sig, core, ps);
    e := UpdateRows(e, cell, sig, core, ps);
    CoreCellsGrow(ps, Pixel(cell, sig, core));
    if core {
      e := e.(minCol := Min(e.minCol, Col(cell)), maxCol := Max(e.maxCol, Col(cell)),
              minRow := Min(e.minRow, Row(cell)), maxRow := Max(e.maxRow, Row(cell)));
    }
  }

  /** The border flags, read off the finished bounding box. */
  method GetEdgeTouchedFlag(e0: EdgeInfo, ghost ps: seq<Pixel>) returns (e: EdgeInfo)
    requires Describes(e0, ps) && |CoreCells(ps)| > 0
    requires forall c :: c in CoreCells(ps) ==> IsCell(c)
    ensures Describes(e, ps)
    ensures e.touchesBorder <==> exists c :: c in CoreCells(ps) && OnBorder(c)
    ensures e.nearBorder <==> exists c :: c in CoreCells(ps) && NearBorder(c)
  {
    e := e0.(touchesBorder := e0.minCol <= 0 || e0.maxCol >= COL_MAX || e0.minRow <= 0 || e0.maxRow >= ROW_MAX,
             nearBorder := e0.minCol < 2 || e0.maxCol > COL_MAX - 2 || e0.minRow < 2 || e0.maxRow > ROW_MAX - 2);
    BorderByBox(CoreCells(ps), e0);
  }

  /** The bounds reach past a margin exactly when a cell lies in it. */
  lemma BoundsReach(cells: seq<int>, a: Axis, lo: int, hi: int)
    requires |cells| > 0 && forall k :: 0 <= k < |cells| ==> IsCell(cells[k])
    ensures (Low(cells, a) <= lo || High(cells, a) >= hi)
       <==> exists k :: 0 <= k < |cells| && !(lo < Coord(a, cells[k]) < hi)
  {
    BoundsAreExact(cells, a);
  }

  lemma BorderByBox(cells: seq<int>, e: EdgeInfo)
    requires |cells| > 0 && forall c :: c in cells ==> IsCell(c)
    requires e.minCol == Low(cells, Across) && e.maxCol == High(cells, Across)
    requires e.minRow == Low(cells, Down) && e.maxRow == High(cells, Down)
    ensures (e.minCol <= 0 || e.maxCol >= COL_MAX || e.minRow <= 0 || e.maxRow >= ROW_MAX)
       <==> exists c :: c in cells && OnBorder(c)
    ensures (e.minCol < 2 || e.maxCol > COL_MAX - 2 || e.minRow < 2 || e.maxRow > ROW_MAX - 2)
       <==> exists c :: c in cells && NearBorder(c)
  {
    forall k | 0 <= k < |cells| ensures IsCell(cells[k]) {
      assert cells[k] in cells;
    }
    BoundsReach(cells, Across, 0, COL_MAX);
    BoundsReach(cells, Down, 0, ROW_MAX);
    BoundsReach(cells, Across, 1, COL_MAX - 1);
    BoundsReach(cells, Down, 1, ROW_MAX - 1);
    MarginsAreBands(cells);
  }

  lemma MarginsAreBands(cells: seq<int>)
    requires forall k :: 0 <= k < |cells| ==> IsCell(cells[k])
    ensures ((exists k :: 0 <= k < |cells| && !(0 < Coord(Across, cells[k]) < COL_MAX))
             || (exists k :: 0 <= k < |cells| && !(0 < Coord(Down, cells[k]) < ROW_MAX)))
       <==> exists c :: c in cells && OnBorder(c)
    ensures ((exists k :: 0 <= k < |cells| && !(1 < Coord(Across, cells[k]) < COL_MAX - 1))
             || (exists k :: 0 <= k < |cells| && !(1 < Coord(Down, cells[k]) < ROW_MAX - 1)))
       <==> exists c :: c in cells && NearBorder(c)
  {
    forall c | IsCell(c)
      ensures !(0 < Coord(Across, c) < COL_MAX) || !(0 < Coord(Down, c) < ROW_MAX) <==> OnBorder(c)
      ensures !(1 < Coord(Across, c) < COL_MAX - 1) || !(1 < Coord(Down, c) < ROW_MAX - 1) <==> NearBorder(c)
    {
      CellOfCoordinates(c);
    }
  }
}
