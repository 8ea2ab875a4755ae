/** The stylus grid's peak detector: stack flood, strongest peak, projections. */
module StylusPeak {
  import opened EngineTypes
  import opened StylusGrid
  import opened Worklist

  // ----- the stack flood -----

  /** The flags show exactly the cells of two sets. */
  ghost predicate Shows(visited: seq<bool>, before: set<int>, mark: set<int>) {
    |visited| == SIZE && forall j :: 0 <= j < SIZE ==> (visited[j] <==> j in before || j in mark)
  }

  /** Offsets in the order up, down, left, right. */
  function StepRow(i: int, d: int): int { RowOf(i) + if d == 0 then -1 else if d == 1 then 1 else 0 }

  function StepCol(i: int, d: int): int { ColOf(i) + if d == 2 then -1 else if d == 3 then 1 else 0 }

  /** Neighbour of a cell at an offset, -1 off the grid. */
  function Neighbour(i: int, d: int): int {
    var (r, c) := (StepRow(i, d), StepCol(i, d));
    if 0 <= r < DIM && 0 <= c < DIM then At(r, c) else -1
  }

  lemma NearIsNeighbour(i: int, j: int)
    requires Inside(i) && Inside(j) && Near(i, j)
    ensures Neighbour(i, 0) == j || Neighbour(i, 1) == j || Neighbour(i, 2) == j || Neighbour(i, 3) == j
  {
    assert j == RowOf(j) * DIM + ColOf(j);
  }

  /** Mid-flood: the marks belong to the component and avoid what was visited before. */
  ghost predicate Filling(grid: seq<int>, noise: int, seed: int, before: set<int>, mark: set<int>) {
    && Strong(grid, noise, seed) && seed !in before && seed in mark
    && Closed(grid, noise, before) && (forall i :: i in before ==> Strong(grid, noise, i))
    && mark !! before && mark <= Component(grid, noise, seed)
  }

  /** The neighbour is weak, off the grid, or marked. */
  ghost predicate Settled(grid: seq<int>, noise: int, mark: set<int>, j: int) { Strong(grid, noise, j) ==> j in mark }

  ghost predicate SettledAround(grid: seq<int>, noise: int, mark: set<int>, i: int) {
    forall j :: Inside(j) && Near(i, j) ==> Settled(grid, noise, mark, j)
  }

  /** A strong neighbour of a mark is not among the cells visited before. */
  lemma NotBefore(grid: seq<int>, noise: int, seed: int, before: set<int>, mark: set<int>, i: int, j: int)
    requires Filling(grid, noise, seed, before, mark) && i in mark && Strong(grid, noise, j) && Near(i, j)
    ensures j !in before && j in Component(grid, noise, seed)
  {
    ComponentIsClosed(grid, noise, seed);
    assert Near(j, i) && Strong(grid, noise, i);
  }

  /** One neighbour of cell `i`. */
  method Visit(grid: seq<int>, noise: int, visited: array<bool>, i: int, d: int, stack0: seq<int>, ghost seed: int,
               ghost before: set<int>, ghost mark0: set<int>, ghost done: set<int>)
    returns (stack: seq<int>, ghost mark: set<int>)
    requires |grid| == SIZE == visited.Length && Inside(i) && 0 <= d < 4
    requires Filling(grid, noise, seed, before, mark0) && Shows(visited[..], before, mark0)
    requires i in done && done <= mark0 && Pending(stack0, mark0, done)
    modifies visited
    ensures Filling(grid, noise, seed, before, mark) && Shows(visited[..], before, mark)
    ensures mark0 <= mark && Pending(stack, mark, done)
    ensures Settled(grid, noise, mark, Neighbour(i, d))
  {
    stack, mark := stack0, mark0;
    var j := Neighbour(i, d);
    if j == -1 { return; }
    if Strong(grid, noise, j) { NotBefore(grid, noise, seed, before, mark, i, j); }
    assert visited[..][j] == visited[j];
    if visited[j] { return; }
    if grid[j] <= noise { return; }
    ghost var was := visited[..];
    visited[j] := true;
    assert visited[..] == was[j := true];
    stack, mark := stack + [j], mark + {j};
  }

  lemma AroundByOffset(grid: seq<int>, noise: int, mark: set<int>, i: int)
    requires Inside(i) && forall d :: 0 <= d < 4 ==> Settled(grid, noise, mark, Neighbour(i, d))
    ensures SettledAround(grid, noise, mark, i)
  {
    forall j | Inside(j) && Near(i, j) ensures Settled(grid, noise, mark, j) {
      NearIsNeighbour(i, j);
    }
  }

  /** The four neighbours of cell `i`. */
  method VisitAround(grid: seq<int>, noise: int, visited: array<bool>, i: int, stack0: seq<int>, ghost seed: int,
                     ghost before: set<int>, ghost mark0: set<int>, ghost done: set<int>)
    returns (stack: seq<int>, ghost mark: set<int>)
    requires |grid| == SIZE == visited.Length && Inside(i)
    requires Filling(grid, noise, seed, before, mark0) && Shows(visited[..], before, mark0)
    requires i in done && done <= mark0 && Pending(stack0, mark0, done)
    modifies visited
    ensures Filling(grid, noise, seed, before, mark) && Shows(visited[..], before, mark)
    ensures mark0 <= mark && Pending(stack, mark, done)
    ensures SettledAround(grid, noise, mark, i)
  {
    stack, mark := stack0, mark0;
    for d := 0 to 4
      invariant Filling(grid, noise, seed, before, mark) && Shows(visited[..], before, mark)
      invariant mark0 <= mark && Pending(stack, mark, done)
      invariant forall k :: 0 <= k < d ==> Settled(grid, noise, mark, Neighbour(i, k))
    {
      stack, mark := Visit(grid, noise, visited, i, d, stack, seed, before, mark, done);
    }
    AroundByOffset(grid, noise, mark, i);
  }

  /** When every mark's surroundings are settled the marks are the component. */
  lemma FilledIsComponent(grid: seq<int>, noise: int, seed: int, before: set<int>, mark: set<int>)
    requires Filling(grid, noise, seed, before, mark) && forall i :: i in mark ==> SettledAround(grid, noise, mark, i)
    ensures mark == Component(grid, noise, seed)
  {
    forall i, j | i in mark && Strong(grid, noise, j) && Near(i, j) ensures j in mark {
      assert SettledAround(grid, noise, mark, i) && Settled(grid, noise, mark, j);
    }
  }

  /** The seed is marked and stacked. */
  lemma FloodStarts(grid: seq<int>, noise: int, seed: int, before: set<int>)
    requires Strong(grid, noise, seed) && seed !in before
    requires Closed(grid, noise, before) && forall i :: i in before ==> Strong(grid, noise, i)
    ensures Filling(grid, noise, seed, before, {seed}) && Pending([seed], {seed}, {})
  {
    ComponentIsClosed(grid, noise, seed);
  }

  /** One cell off the stack. */
  method PopCell(grid: seq<int>, noise: int, visited: array<bool>, stack0: seq<int>, region0: seq<int>, ghost seed: int,
                 ghost before: set<int>, ghost mark0: set<int>, ghost done0: set<int>)
    returns (stack: seq<int>, region: seq<int>, ghost mark: set<int>, ghost done: set<int>)
    requires |grid| == SIZE == visited.Length && |stack0| > 0
    requires Filling(grid, noise, seed, before, mark0) && Shows(visited[..], before, mark0)
    requires done0 <= mark0 && Pending(stack0, mark0, done0) && Pending(region0, done0, {})
    requires forall i :: i in done0 ==> SettledAround(grid, noise, mark0, i)
    modifies visited
    ensures Filling(grid, noise, seed, before, mark) && Shows(visited[..], before, mark)
    ensures done <= mark && Pending(stack, mark, done) && Pending(region, done, {})
    ensures done0 < done && forall i :: i in done ==> SettledAround(grid, noise, mark, i)
  {
    var i := stack0[|stack0| - 1];
    PopLast(stack0, mark0, done0);
    region, done := region0 + [i], done0 + {i};
    assert Inside(i) by { ComponentIsClosed(grid, noise, seed); }
    stack, mark := VisitAround(grid, noise, visited, i, stack0[..|stack0| - 1], seed, before, mark0, done);
    StaySettled(grid, noise, mark0, mark, done0);
  }

  /** The flood ends and lists exactly the seed's component, every cell once. */
  method FloodFill(grid: seq<int>, noise: int, visited: array<bool>, seed: int, ghost before: set<int>)
    returns (region: seq<int>)
    requires |grid| == SIZE == visited.Length && Strong(grid, noise, seed) && seed !in before
    requires Closed(grid, noise, before) && forall i :: i in before ==> Strong(grid, noise, i)
    requires Shows(visited[..], before, {})
    modifies visited
    ensures Pending(region, Component(grid, noise, seed), {})
    ensures Shows(visited[..], before, Component(grid, noise, seed))
  {
    ghost var was := visited[..];
    ghost var mark: set<int>, done: set<int> := {seed}, {};
    FloodStarts(grid, noise, seed, before);
    var stack := [seed];
    region := [];
    visited[seed] := true;
    assert visited[..] == was[seed := true];
    while |stack| > 0
      invariant Filling(grid, noise, seed, before, mark) && Shows(visited[..], before, mark)
      invariant done <= mark && Pending(stack, mark, done) && Pending(region, done, {})
      invariant forall i :: i in done ==> SettledAround(grid, noise, mark, i)
      decreases Component(grid, noise, seed) - done
    {
      stack, region, mark, done := PopCell(grid, noise, visited, stack, region, seed, before, mark, done);
    }
    FilledIsComponent(grid, noise, seed, before, mark);
  }

  lemma StaySettled(grid: seq<int>, noise: int, mark0: set<int>, mark: set<int>, done: set<int>)
    requires mark0 <= mark && forall i :: i in done ==> SettledAround(grid, noise, mark0, i)
    ensures forall i :: i in done ==> SettledAround(grid, noise, mark, i)
  {
    forall i, j | i in done && Inside(j) && Near(i, j) ensures Settled(grid, noise, mark, j) {
      assert SettledAround(grid, noise, mark0, i) && Settled(grid, noise, mark0, j);
    }
  }

  // ----- the strongest leading peak -----

  /** Sum over the first `d` cells of the 3 by 3 window that lie on the grid. */
  function SumTo(grid: seq<int>, i: int, d: nat): int
    requires |grid| == SIZE && d <= 9
    decreases d, i
  {
    if d == 0 then 0
    else
      var (r, c) := (RowOf(i) + (d - 1) / 3 - 1, ColOf(i) + (d - 1) % 3 - 1);
      SumTo(grid, i, d - 1) + if 0 <= r < DIM && 0 <= c < DIM then grid[At(r, c)] else 0
  }

  function Sum3x3(grid: seq<int>, i: int): int
    requires |grid| == SIZE
  {
    SumTo(grid, i, 9)
  }

  datatype PeakUnit = PeakUnit(peakRow: int, peakCol: int, peakValue: int, neighborSum3x3: int, connectedPixels: int,
                               valid: bool)

  const NO_PEAK := PeakUnit(-1, -1, 0, 0, 0, false)

  /** A leading peak of a component below the size limit. */
  ghost predicate Candidate(grid: seq<int>, noise: int, limit: int, p: int) {
    Leads(grid, noise, p) && |Component(grid, noise, p)| < limit
  }

  ghost function UnitAt(grid: seq<int>, noise: int, p: int): PeakUnit
    requires |grid| == SIZE && Inside(p)
  {
    PeakUnit(RowOf(p), ColOf(p), grid[p], Sum3x3(grid, p), |Component(grid, noise, p)|, true)
  }

  ghost function Candidates(grid: seq<int>, noise: int, limit: int, n: int): set<int> {
    set p | 0 <= p < n && Candidate(grid, noise, limit, p)
  }

  /** Peak `p` is the first of greatest positive sum among the candidates. */
  ghost predicate BestOf(grid: seq<int>, cands: set<int>, p: int)
    requires |grid| == SIZE
  {
    && p in cands && Inside(p) && Sum3x3(grid, p) > 0
    && forall q :: q in cands ==>
         Sum3x3(grid, q) <= Sum3x3(grid, p) && (q < p ==> Sum3x3(grid, q) < Sum3x3(grid, p))
  }

  /** The best candidate; nothing if no sum is positive. */
  ghost predicate Best(grid: seq<int>, noise: int, cands: set<int>, best: PeakUnit)
    requires |grid| == SIZE
  {
    if best.valid then exists p :: BestOf(grid, cands, p) && best == UnitAt(grid, noise, p)
    else best == NO_PEAK && forall q :: q in cands ==> Sum3x3(grid, q) <= 0
  }

  ghost predicate BestBefore(grid: seq<int>, noise: int, limit: int, n: int, best: PeakUnit)
    requires |grid| == SIZE
  {
    Best(grid, noise, Candidates(grid, noise, limit, n), best)
  }

  /** A peak before `n` shares the component of `x`. */
  ghost predicate Covered(grid: seq<int>, noise: int, n: int, x: int) {
    exists p :: p < n && IsPeak(grid, noise, p) && x in Component(grid, noise, p)
  }

  /** The visited cells are those of the components with a peak before `n`. */
  ghost predicate Scanned(grid: seq<int>, noise: int, n: int, seen: set<int>) {
    && Closed(grid, noise, seen) && (forall i :: i in seen ==> Strong(grid, noise, i))
    && (forall p :: p < n && IsPeak(grid, noise, p) ==> p in seen)
    && (forall x {:trigger Covered(grid, noise, n, x)} :: x in seen ==> Covered(grid, noise, n, x))
  }

  /** A visited cell does not lead: an earlier peak shares its component. */
  lemma CoveredDoesNotLead(grid: seq<int>, noise: int, n: int)
    requires Covered(grid, noise, n, n)
    ensures !Leads(grid, noise, n)
  {
    var p :| p < n && IsPeak(grid, noise, p) && n in Component(grid, noise, p);
    ReachBack(grid, noise, p, n);
  }

  /** An unvisited peak leads: no earlier peak shares its component. */
  lemma UnseenLeads(grid: seq<int>, noise: int, n: int, seen: set<int>)
    requires Scanned(grid, noise, n, seen) && n !in seen && IsPeak(grid, noise, n)
    ensures Leads(grid, noise, n)
  {
    forall q | IsPeak(grid, noise, q) && q in Component(grid, noise, n) ensures n <= q {
      if q < n {
        ReachBack(grid, noise, n, q);
      }
    }
  }

  lemma UnionIsClosed(grid: seq<int>, noise: int, a: set<int>, b: set<int>)
    requires Closed(grid, noise, a) && Closed(grid, noise, b)
    ensures Closed(grid, noise, a + b)
  {
  }

  lemma CoveredLonger(grid: seq<int>, noise: int, n: int, x: int)
    requires Covered(grid, noise, n, x)
    ensures Covered(grid, noise, n + 1, x)
  {
    var p :| p < n && IsPeak(grid, noise, p) && x in Component(grid, noise, p);
    assert p < n + 1;
  }

  lemma CoveredNow(grid: seq<int>, noise: int, n: int, x: int)
    requires IsPeak(grid, noise, n) && x in Component(grid, noise, n)
    ensures Covered(grid, noise, n + 1, x)
  {
  }

  lemma ScanMore(grid: seq<int>, noise: int, n: int, seen: set<int>)
    requires Scanned(grid, noise, n, seen) && IsPeak(grid, noise, n)
    ensures Scanned(grid, noise, n + 1, seen + Component(grid, noise, n))
  {
    var c, m := Component(grid, noise, n), n + 1;
    ComponentIsClosed(grid, noise, n);
    UnionIsClosed(grid, noise, seen, c);
    forall x | x in seen + c ensures Covered(grid, noise, m, x) {
      CoveredEither(grid, noise, n, seen, x);
    }
  }

  lemma CoveredEither(grid: seq<int>, noise: int, n: int, seen: set<int>, x: int)
    requires Scanned(grid, noise, n, seen) && IsPeak(grid, noise, n) && x in seen + Component(grid, noise, n)
    ensures Covered(grid, noise, n + 1, x)
  {
    if x in seen {
      assert Covered(grid, noise, n, x);
      CoveredLonger(grid, noise, n, x);
    } else {
      CoveredNow(grid, noise, n, x);
    }
  }

  lemma ScanOn(grid: seq<int>, noise: int, n: int, seen: set<int>)
    requires Scanned(grid, noise, n, seen) && (IsPeak(grid, noise, n) ==> n in seen)
    ensures Scanned(grid, noise, n + 1, seen)
  {
    var m := n + 1;
    forall x | x in seen ensures Covered(grid, noise, m, x) {
      assert Covered(grid, noise, n, x);
      CoveredLonger(grid, noise, n, x);
    }
  }

  /** The cells above, below, left and right are near. */
  lemma NearCells(i: int)
    requires Inside(i)
    ensures RowOf(i) > 0 ==> Inside(i - DIM) && Near(i, i - DIM)
    ensures RowOf(i) < DIM - 1 ==> Inside(i + DIM) && Near(i, i + DIM)
    ensures ColOf(i) > 0 ==> Inside(i - 1) && Near(i, i - 1)
    ensures ColOf(i) < DIM - 1 ==> Inside(i + 1) && Near(i, i + 1)
  {
  }

  /** Local maximum test. */
  method TestPeak(grid: seq<int>, noise: int, i: int) returns (ok: bool)
    requires |grid| == SIZE && Inside(i)
    ensures ok <==> IsPeak(grid, noise, i)
  {
    var r, c, v := RowOf(i), ColOf(i), grid[i];
    if v <= noise { return false; }
    NearCells(i);
    if r > 0 && grid[i - DIM] > v { return false; }
    if r < DIM - 1 && grid[i + DIM] > v { return false; }
    if c > 0 && grid[i - 1] > v { return false; }
    if c < DIM - 1 && grid[i + 1] > v { return false; }
    forall j | Inside(j) && Near(i, j) ensures grid[j] <= v {
      NearIsNeighbour(i, j);
    }
    return true;
  }

  method Calc3x3Sum(grid: seq<int>, i: int) returns (sum: int)
    requires |grid| == SIZE && Inside(i)
    ensures sum == Sum3x3(grid, i)
  {
    sum := 0;
    for d := 0 to 9
      invariant sum == SumTo(grid, i, d)
    {
      var r, c := RowOf(i) + d / 3 - 1, ColOf(i) + d % 3 - 1;
      if 0 <= r < DIM && 0 <= c < DIM { sum := sum + grid[At(r, c)]; }
    }
  }

  /** Leading peaks before `n`. */
  ghost function LeadsBefore(grid: seq<int>, noise: int, n: int): set<int> {
    set p | 0 <= p < n && Leads(grid, noise, p)
  }

  lemma NextCandidate(grid: seq<int>, noise: int, limit: int, n: nat)
    ensures Candidates(grid, noise, limit, n + 1)
         == Candidates(grid, noise, limit, n) + if Candidate(grid, noise, limit, n) then {n} else {}
  {
  }

  /** A candidate no better than the best so far changes nothing. */
  lemma BestHolds(grid: seq<int>, noise: int, cands: set<int>, n: int, best: PeakUnit)
    requires |grid| == SIZE && Best(grid, noise, cands, best) && Sum3x3(grid, n) <= best.neighborSum3x3
    requires forall q :: q in cands ==> q < n
    ensures Best(grid, noise, cands + {n}, best)
  {
    if best.valid {
      var p :| BestOf(grid, cands, p) && best == UnitAt(grid, noise, p);
      assert BestOf(grid, cands + {n}, p);
    }
  }

  /** A better candidate takes its place. */
  lemma BestGivesWay(grid: seq<int>, noise: int, cands: set<int>, n: int, best: PeakUnit)
    requires |grid| == SIZE && Inside(n) && Best(grid, noise, cands, best) && Sum3x3(grid, n) > best.neighborSum3x3
    ensures Best(grid, noise, cands + {n}, UnitAt(grid, noise, n))
  {
    if best.valid {
      var p :| BestOf(grid, cands, p) && best == UnitAt(grid, noise, p);
    }
    assert BestOf(grid, cands + {n}, n);
  }

  /** Weigh one flooded peak against the best so far. */
  method Weigh(grid: seq<int>, noise: int, limit: int, n: int, count: int, best0: PeakUnit) returns (best: PeakUnit)
    requires |grid| == SIZE && Inside(n) && Leads(grid, noise, n) && count == |Component(grid, noise, n)|
    requires BestBefore(grid, noise, limit, n, best0)
    ensures BestBefore(grid, noise, limit, n + 1, best)
  {
    best := best0;
    NextCandidate(grid, noise, limit, n);
    if count >= limit { return; }
    ghost var cands := Candidates(grid, noise, limit, n);
    var sum := Calc3x3Sum(grid, n);
    if sum > best.neighborSum3x3 {
      BestGivesWay(grid, noise, cands, n, best);
      best := PeakUnit(RowOf(n), ColOf(n), grid[n], sum, count, true);
    } else {
      BestHolds(grid, noise, cands, n, best);
    }
  }

  /** Does the flood start here? Only from the leading peak of a component. */
  method StartsHere(grid: seq<int>, noise: int, visited: array<bool>, n: int, ghost seen: set<int>)
    returns (leads: bool)
    requires |grid| == SIZE == visited.Length && Inside(n)
    requires Scanned(grid, noise, n, seen) && Shows(visited[..], seen, {})
    ensures leads <==> Leads(grid, noise, n)
    ensures leads ==> n !in seen
    ensures !leads ==> Scanned(grid, noise, n + 1, seen)
  {
    assert visited[..][n] == visited[n];
    if visited[n] {
      assert Covered(grid, noise, n, n);
      CoveredDoesNotLead(grid, noise, n);
      ScanOn(grid, noise, n, seen);
      return false;
    }
    leads := TestPeak(grid, noise, n);
    if leads { UnseenLeads(grid, noise, n, seen); } else { ScanOn(grid, noise, n, seen); }
  }

  /** Flood the component of a leading peak and count it. */
  method FloodLead(grid: seq<int>, noise: int, visited: array<bool>, n: int, ghost seen0: set<int>)
    returns (count: int, ghost seen: set<int>)
    requires |grid| == SIZE == visited.Length && Leads(grid, noise, n) && n !in seen0
    requires Scanned(grid, noise, n, seen0) && Shows(visited[..], seen0, {})
    modifies visited
    ensures Scanned(grid, noise, n + 1, seen) && Shows(visited[..], seen, {})
    ensures count == |Component(grid, noise, n)|
  {
    var region := FloodFill(grid, noise, visited, n, seen0);
    ScanMore(grid, noise, n, seen0);
    seen := seen0 + Component(grid, noise, n);
    PendingLists(region, Component(grid, noise, n));
    count := |region|;
  }

  lemma NextLead(grid: seq<int>, noise: int, n: nat)
    ensures LeadsBefore(grid, noise, n + 1) == if Leads(grid, noise, n) then LeadsBefore(grid, noise, n) + {n}
            else LeadsBefore(grid, noise, n)
  {
  }

  /** Where the scan stands before cell `n`. */
  ghost predicate ScanState(grid: seq<int>, noise: int, limit: int, n: int, visited: seq<bool>, best: PeakUnit,
                            seen: set<int>, seeds: seq<int>)
    requires |grid| == SIZE
  {
    && Scanned(grid, noise, n, seen) && Shows(visited, seen, {}) && BestBefore(grid, noise, limit, n, best)
    && Pending(seeds, LeadsBefore(grid, noise, n), {})
  }

  /** One cell of the scan. */
  method ScanCell(grid: seq<int>, noise: int, limit: int, visited: array<bool>, n: nat, best0: PeakUnit,
                  ghost seen0: set<int>, ghost seeds0: seq<int>)
    returns (best: PeakUnit, next: nat, ghost seen: set<int>, ghost seeds: seq<int>)
    requires |grid| == SIZE == visited.Length && Inside(n)
    requires ScanState(grid, noise, limit, n, visited[..], best0, seen0, seeds0)
    modifies visited
    ensures next == n + 1 && ScanState(grid, noise, limit, next, visited[..], best, seen, seeds)
  {
    best, seen, seeds, next := best0, seen0, seeds0, n + 1;
    NextLead(grid, noise, n);
    var leads := StartsHere(grid, noise, visited, n, seen);
    if leads {
      var count;
      count, seen := FloodLead(grid, noise, visited, n, seen);
      best := Weigh(grid, noise, limit, n, count, best);
      seeds := seeds + [n];
    } else {
      NextCandidate(grid, noise, limit, n);
    }
  }

  lemma NothingScanned(grid: seq<int>, noise: int, limit: int, visited: seq<bool>)
    requires |grid| == SIZE && Shows(visited, {}, {})
    ensures ScanState(grid, noise, limit, 0, visited, NO_PEAK, {}, [])
  {
  }

  /** Every component is flooded exactly once, from its leading peak (`seeds` lists them in order), and the
      answer is the strongest of those below the size limit. */
  method FindPeak(grid: seq<int>, noise: int, limit: int) returns (best: PeakUnit, ghost seeds: seq<int>)
    requires |grid| == SIZE
    ensures BestBefore(grid, noise, limit, SIZE, best)
    ensures Pending(seeds, LeadsBefore(grid, noise, SIZE), {})
  {
    best, seeds := NO_PEAK, [];
    var visited := new bool[SIZE](_ => false);
    ghost var seen: set<int> := {};
    NothingScanned(grid, noise, limit, visited[..]);
    var n := 0;
    while n < SIZE
      invariant 0 <= n <= SIZE && ScanState(grid, noise, limit, n, visited[..], best, seen, seeds)
    {
      best, n, seen, seeds := ScanCell(grid, noise, limit, visited, n, best, seen, seeds);
    }
  }

  // ----- projections -----

  /** Sum of the rows from `lo` to before `hi` in a column. */
  function ColumnSum(grid: seq<int>, c: int, lo: int, hi: int): int
    requires |grid| == SIZE && 0 <= c < DIM && 0 <= lo <= hi <= DIM
  {
    if lo == hi then 0 else ColumnSum(grid, c, lo, hi - 1) + grid[At(hi - 1, c)]
  }

  function RowSum(grid: seq<int>, r: int, lo: int, hi: int): int
    requires |grid| == SIZE && 0 <= r < DIM && 0 <= lo <= hi <= DIM
  {
    if lo == hi then 0 else RowSum(grid, r, lo, hi - 1) + grid[At(r, hi - 1)]
  }

  datatype Projection = Projection(dim1: seq<int>, dim2: seq<int>, peakIdxDim1: int, peakIdxDim2: int)

  /** The first greatest entry, or -1 when none is positive. */
  ghost predicate IsLinePeak(signal: seq<int>, k: int) {
    if k == -1 then forall i :: 0 <= i < |signal| ==> signal[i] <= 0
    else
      && 0 <= k < |signal| && signal[k] > 0
      && (forall i :: 0 <= i < |signal| ==> signal[i] <= signal[k])
      && (forall i :: 0 <= i < k ==> signal[i] < signal[k])
  }

  method FindLinePeak(signal: seq<int>) returns (k: int)
    requires |signal| > 0
    ensures IsLinePeak(signal, k)
  {
    k := 0;
    for i := 1 to |signal|
      invariant 0 <= k < |signal| && (forall j :: 0 <= j < i ==> signal[j] <= signal[k])
      invariant forall j :: 0 <= j < k ==> signal[j] < signal[k]
    {
      if signal[i] > signal[k] { k := i; }
    }
    if signal[k] <= 0 { k := -1; }
  }

  method ColumnSums(grid: seq<int>, lo: int, hi: int) returns (sums: seq<int>)
    requires |grid| == SIZE && 0 <= lo <= hi <= DIM
    ensures |sums| == DIM && forall c :: 0 <= c < DIM ==> sums[c] == ColumnSum(grid, c, lo, hi)
  {
    sums := [];
    for c := 0 to DIM
      invariant |sums| == c && forall k :: 0 <= k < c ==> sums[k] == ColumnSum(grid, k, lo, hi)
    {
      var sum := 0;
      for r := lo to hi
        invariant sum == ColumnSum(grid, c, lo, r)
      {
        sum := sum + grid[At(r, c)];
      }
      sums := sums + [sum];
    }
  }

  method RowSums(grid: seq<int>, lo: int, hi: int) returns (sums: seq<int>)
    requires |grid| == SIZE && 0 <= lo <= hi <= DIM
    ensures |sums| == DIM && forall r :: 0 <= r < DIM ==> sums[r] == RowSum(grid, r, lo, hi)
  {
    sums := [];
    for r := 0 to DIM
      invariant |sums| == r && forall k :: 0 <= k < r ==> sums[k] == RowSum(grid, k, lo, hi)
    {
      var sum := 0;
      for c := lo to hi
        invariant sum == RowSum(grid, r, lo, c)
      {
        sum := sum + grid[At(r, c)];
      }
      sums := sums + [sum];
    }
  }

  /** Sums over the rows, and over the columns, within `radius` of the peak; without a peak both are zero. */
  ghost predicate IsProjection(grid: seq<int>, peak: PeakUnit, radius: nat, proj: Projection)
    requires |grid| == SIZE && (peak.valid ==> 0 <= peak.peakRow < DIM && 0 <= peak.peakCol < DIM)
  {
    && |proj.dim1| == |proj.dim2| == DIM && IsLinePeak(proj.dim1, proj.peakIdxDim1)
         && IsLinePeak(proj.dim2, proj.peakIdxDim2)
    && forall k :: 0 <= k < DIM ==>
         if peak.valid then
           && proj.dim1[k] == ColumnSum(grid, k, Max(0, peak.peakRow - radius), Min(DIM - 1, peak.peakRow + radius) + 1)
           && proj.dim2[k] == RowSum(grid, k, Max(0, peak.peakCol - radius), Min(DIM - 1, peak.peakCol + radius) + 1)
         else proj.dim1[k] == proj.dim2[k] == 0
  }

  method ProjectTo1D(grid: seq<int>, peak: PeakUnit, radius: nat) returns (proj: Projection)
    requires |grid| == SIZE && (peak.valid ==> 0 <= peak.peakRow < DIM && 0 <= peak.peakCol < DIM)
    ensures IsProjection(grid, peak, radius, proj)
    ensures !peak.valid ==> proj.peakIdxDim1 == proj.peakIdxDim2 == -1
  {
    if !peak.valid {
      return Projection(seq(DIM, _ => 0), seq(DIM, _ => 0), -1, -1);
    }
    var rMin, rMax := Max(0, peak.peakRow - radius), Min(DIM - 1, peak.peakRow + radius);
    var cMin, cMax := Max(0, peak.peakCol - radius), Min(DIM - 1, peak.peakCol + radius);
    var dim1 := ColumnSums(grid, rMin, rMax + 1);
    var dim2 := RowSums(grid, cMin, cMax + 1);
    var k1 := FindLinePeak(dim1);
    var k2 := FindLinePeak(dim2);
    proj := Projection(dim1, dim2, k1, k2);
  }
}
