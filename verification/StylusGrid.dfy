/** Peak search on the 9 by 9 stylus grid: connected regions, their leading peaks, and the strongest of them. */
module StylusGrid {

  const DIM: int := 9
  const SIZE: int := 81

  predicate Inside(i: int) { 0 <= i < SIZE }

  function RowOf(i: int): int { i / DIM }

  function ColOf(i: int): int { i % DIM }

  function At(r: int, c: int): (i: int)
    requires 0 <= r < DIM && 0 <= c < DIM
    ensures Inside(i) && RowOf(i) == r && ColOf(i) == c
  {
    r * DIM + c
  }

  /** Four-connected neighbours. */
  predicate Near(i: int, j: int) {
    || (RowOf(i) == RowOf(j) && (ColOf(i) - ColOf(j) == 1 || ColOf(j) - ColOf(i) == 1))
    || (ColOf(i) == ColOf(j) && (RowOf(i) - RowOf(j) == 1 || RowOf(j) - RowOf(i) == 1))
  }

  predicate Strong(grid: seq<int>, noise: int, i: int) {
    Inside(i) && |grid| == SIZE && grid[i] > noise
  }

  // ----- connected regions -----

  /** No strong neighbour of the set lies outside it. */
  ghost predicate Closed(grid: seq<int>, noise: int, s: set<int>) {
    forall i, j :: i in s && Strong(grid, noise, j) && Near(i, j) ==> j in s
  }

  /** Cell `j` lies in every closed set that holds the seed. */
  ghost predicate Reached(grid: seq<int>, noise: int, seed: int, j: int) {
    forall s: set<int> :: seed in s && Closed(grid, noise, s) ==> j in s
  }

  /** The four-connected component of the seed: the least closed set that holds it. */
  ghost function Component(grid: seq<int>, noise: int, seed: int): set<int> {
    set j | 0 <= j < SIZE && Reached(grid, noise, seed, j)
  }

  lemma ComponentIsClosed(grid: seq<int>, noise: int, seed: int)
    requires Strong(grid, noise, seed)
    ensures seed in Component(grid, noise, seed) && Closed(grid, noise, Component(grid, noise, seed))
    ensures forall j :: j in Component(grid, noise, seed) ==> Strong(grid, noise, j)
  {
    var c := Component(grid, noise, seed);
    forall i, j | i in c && Strong(grid, noise, j) && Near(i, j) ensures j in c {
      forall s: set<int> | seed in s && Closed(grid, noise, s) ensures j in s {
        assert i in s;
      }
    }
    var all := set j | 0 <= j < SIZE && Strong(grid, noise, j);
    assert seed in all && Closed(grid, noise, all);
  }

  /** Reaching is mutual. */
  lemma ReachBack(grid: seq<int>, noise: int, a: int, b: int)
    requires Strong(grid, noise, a) && b in Component(grid, noise, a)
    ensures a in Component(grid, noise, b)
  {
    var ca, cb := Component(grid, noise, a), Component(grid, noise, b);
    ComponentIsClosed(grid, noise, a);
    ComponentIsClosed(grid, noise, b);
    if a !in cb {
      var rest := ca - cb;
      forall i, j | i in rest && Strong(grid, noise, j) && Near(i, j) ensures j in rest {
        assert Near(j, i) && Strong(grid, noise, i);
      }
    }
  }

  /** Cells of one component have the same component. */
  lemma SameComponent(grid: seq<int>, noise: int, a: int, b: int)
    requires Strong(grid, noise, a) && b in Component(grid, noise, a)
    ensures Component(grid, noise, a) == Component(grid, noise, b)
  {
    ComponentIsClosed(grid, noise, a);
    ReachBack(grid, noise, a, b);
    ComponentIsClosed(grid, noise, b);
  }

  // ----- peaks -----

  /** Above the noise and exceeded by no neighbour. */
  ghost predicate IsPeak(grid: seq<int>, noise: int, i: int) {
    Strong(grid, noise, i) && forall j :: Inside(j) && Near(i, j) ==> grid[j] <= grid[i]
  }

  /** The first peak of its component in scan order. */
  ghost predicate Leads(grid: seq<int>, noise: int, p: int) {
    IsPeak(grid, noise, p) && forall q :: IsPeak(grid, noise, q) && q in Component(grid, noise, p) ==> p <= q
  }

  lemma StrongestCell(grid: seq<int>, c: set<int>, x: int) returns (top: int)
    requires |grid| == SIZE && x in c && forall j :: j in c ==> Inside(j)
    ensures top in c && Inside(top) && forall j :: 0 <= j < SIZE && j in c ==> grid[j] <= grid[top]
  {
    top := x;
    for n := 0 to SIZE
      invariant top in c && Inside(top) && forall j :: 0 <= j < n && j in c ==> grid[j] <= grid[top]
    {
      if n in c && grid[n] > grid[top] { top := n; }
    }
  }

  lemma FirstIn(c: set<int>, x: int) returns (p: int)
    requires x in c && forall j :: j in c ==> 0 <= j < SIZE
    ensures p in c && forall j :: j in c ==> p <= j
  {
    p := x;
    for n := 0 to SIZE
      invariant p in c && forall j :: 0 <= j < n && j in c ==> p <= j
    {
      if n in c && n < p { p := n; }
    }
  }

  lemma LeadersAgree(grid: seq<int>, noise: int, p: int, q: int)
    requires Leads(grid, noise, p) && Leads(grid, noise, q)
    requires p in Component(grid, noise, q) && q in Component(grid, noise, p)
    ensures p == q
  {
  }

  lemma OneLeader(grid: seq<int>, noise: int, x: int, p: int, q: int)
    requires Strong(grid, noise, x) && p in Component(grid, noise, x) && q in Component(grid, noise, x)
    requires Leads(grid, noise, p) && Leads(grid, noise, q)
    ensures p == q
  {
    SameComponent(grid, noise, x, p);
    SameComponent(grid, noise, x, q);
    LeadersAgree(grid, noise, p, q);
  }

  /** The first peak of a component leads it. */
  lemma FirstPeakLeads(grid: seq<int>, noise: int, x: int, top: int) returns (p: int)
    requires Strong(grid, noise, x) && top in Component(grid, noise, x) && IsPeak(grid, noise, top)
    ensures Leads(grid, noise, p) && p in Component(grid, noise, x)
  {
    var peaks := set j | j in Component(grid, noise, x) && IsPeak(grid, noise, j);
    p := FirstIn(peaks, top);
    SameComponent(grid, noise, x, p);
    forall q | IsPeak(grid, noise, q) && q in Component(grid, noise, p) ensures p <= q {
      assert q in peaks;
    }
  }

  /** Every component has a leading peak, and only one. */
  lemma EveryComponentLeads(grid: seq<int>, noise: int, x: int) returns (p: int)
    requires Strong(grid, noise, x)
    ensures Leads(grid, noise, p) && p in Component(grid, noise, x)
    ensures forall q :: Leads(grid, noise, q) && q in Component(grid, noise, x) ==> q == p
  {
    var c := Component(grid, noise, x);
    ComponentIsClosed(grid, noise, x);
    var top := StrongestCell(grid, c, x);
    TopIsPeak(grid, noise, x, top);
    p := FirstPeakLeads(grid, noise, x, top);
    forall q | Leads(grid, noise, q) && q in c ensures q == p {
      OneLeader(grid, noise, x, p, q);
    }
  }

  lemma TopIsPeak(grid: seq<int>, noise: int, x: int, top: int)
    requires Strong(grid, noise, x) && top in Component(grid, noise, x)
    requires forall j :: 0 <= j < SIZE && j in Component(grid, noise, x) ==> grid[j] <= grid[top]
    ensures IsPeak(grid, noise, top)
  {
    ComponentIsClosed(grid, noise, x);
    forall j | Inside(j) && Near(top, j) ensures grid[j] <= grid[top] {
      if Strong(grid, noise, j) { assert j in Component(grid, noise, x); }
    }
  }
}
