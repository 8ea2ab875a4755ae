/** The stylus stages in a row: peak, projection, interpolation, filter. */
module StylusChain {
  import opened StylusGrid
  import opened StylusPeak
  import opened Coordinate
  import opened PostFilter

  /** Positions on the 9 by 9 grid. */
  const GRID := Box(Range(0, DIM * UNIT - 1), Range(0, DIM * UNIT - 1))

  ghost predicate OnGrid(peak: PeakUnit) { 0 <= peak.peakRow < DIM && 0 <= peak.peakCol < DIM }

  /** What the stages before the filter find: the strongest peak, its projections, and their position. */
  datatype Finding = Finding(peak: PeakUnit, proj: Projection, raw: CoorResult)

  ghost predicate Found(grid: seq<int>, noise: int, limit: int, radius: nat, solver: CoordinateSolver, f: Finding)
    requires |grid| == SIZE && |solver.triParamDim1| == |solver.triParamDim2| == 3
  {
    && BestBefore(grid, noise, limit, SIZE, f.peak) && (f.peak.valid ==> OnGrid(f.peak))
    && IsProjection(grid, f.peak, radius, f.proj) && solver.Solves(f.proj, f.raw)
  }

  /** Peak, projections and raw position. A missing peak leaves empty projections, and these no position. */
  method FindPen(grid: seq<int>, noise: int, limit: int, radius: nat, solver: CoordinateSolver) returns (f: Finding)
    requires |grid| == SIZE && |solver.triParamDim1| == |solver.triParamDim2| == 3
    ensures Found(grid, noise, limit, radius, solver, f)
    ensures f.raw.valid ==> f.peak.valid && In(GRID, f.raw)
  {
    ghost var seeds;
    var peak;
    peak, seeds := FindPeak(grid, noise, limit);
    var proj := ProjectTo1D(grid, peak, radius);
    var raw := solver.Solve(proj);
    f := Finding(peak, proj, raw);
  }

  /** One frame. Without a position, or with one judged noisy (`noisy`, decided elsewhere), the filter is left
      alone. Whatever the frames, every reported position stays on the grid and the filter remembers nothing
      beyond it. */
  method LocatePen(grid: seq<int>, noise: int, limit: int, radius: nat, noisy: bool, solver: CoordinateSolver,
                   filter: CoorPostProcessor)
    returns (out: CoorResult, f: Finding)
    requires |grid| == SIZE && |solver.triParamDim1| == |solver.triParamDim2| == 3
    requires filter.Valid() && CoefsOk(filter.cfg) && PostFilter.Inside(filter.State(), GRID)
    modifies filter, filter.history
    ensures Found(grid, noise, limit, radius, solver, f)
    ensures filter.Valid() && PostFilter.Inside(filter.State(), GRID)
    ensures if f.raw.valid && !noisy then (filter.State(), out) == Step(filter.cfg, old(filter.State()), f.raw)
            && out.valid && In(GRID, out)
            else filter.State() == old(filter.State()) && out == NO_RESULT
  {
    f := FindPen(grid, noise, limit, radius, solver);
    if !f.raw.valid || noisy { return NO_RESULT, f; }
    StepStaysInside(filter.cfg, filter.State(), f.raw, GRID);
    out := filter.Process(f.raw);
  }
}
