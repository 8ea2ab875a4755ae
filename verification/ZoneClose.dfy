/** The morphological close of the zone map: fill gaps with the majority label, take back fills that border
    empty space. */
module ZoneClose {
  import opened ZoneGrid
  import CellSums

  const MAX_ZONE: int := 20

  /** Occurrences of label `z` among the first `n` cells of a list. */
  ghost function Votes(zones: seq<int>, ns: seq<int>, n: nat, z: int): nat
    requires n <= |ns| && forall k :: 0 <= k < |ns| ==> 0 <= ns[k] < |zones|
  {
    if n == 0 then 0 else Votes(zones, ns, n - 1, z) + if zones[ns[n - 1]] == z then 1 else 0
  }

  /** The label that first reaches the highest count, with that count. */
  ghost function Winner(zones: seq<int>, ns: seq<int>, n: nat): (int, nat)
    requires n <= |ns| && forall k :: 0 <= k < |ns| ==> 0 <= ns[k] < |zones|
  {
    if n == 0 then (0, 0)
    else
      var (best, count) := Winner(zones, ns, n - 1);
      var z := zones[ns[n - 1]];
      if 1 <= z <= MAX_ZONE && Votes(zones, ns, n, z) > count then (z, Votes(zones, ns, n, z)) else (best, count)
  }

  /** The winner has a majority: no zone label is more frequent, and it is there as often as counted. */
  lemma {:induction false} WinnerIsMajority(zones: seq<int>, ns: seq<int>, n: nat)
    requires n <= |ns| && forall k :: 0 <= k < |ns| ==> 0 <= ns[k] < |zones|
    ensures var (best, count) := Winner(zones, ns, n);
      && (forall z :: 1 <= z <= MAX_ZONE ==> Votes(zones, ns, n, z) <= count)
      && (count > 0 ==> 1 <= best <= MAX_ZONE && Votes(zones, ns, n, best) == count)
  {
    if n > 0 { WinnerIsMajority(zones, ns, n - 1); }
  }

  /** Of labels that are equally frequent the winner is the one that gets there first. */
  lemma {:induction false} WinnerIsFirst(zones: seq<int>, ns: seq<int>, n: nat) returns (k: nat)
    requires n <= |ns| && (forall k :: 0 <= k < |ns| ==> 0 <= ns[k] < |zones|) && Winner(zones, ns, n).1 > 0
    ensures var (best, count) := Winner(zones, ns, n);
      && k <= n && Votes(zones, ns, k, best) == count
      && forall z :: 1 <= z <= MAX_ZONE && z != best ==> Votes(zones, ns, k, z) < count
  {
    WinnerIsMajority(zones, ns, n);
    WinnerIsMajority(zones, ns, n - 1);
    if Winner(zones, ns, n) == Winner(zones, ns, n - 1) { k := WinnerIsFirst(zones, ns, n - 1); } else { k := n; }
  }

  /** The map after filling. */
  ghost function Filled(zones: seq<int>, i: int): int
    requires |zones| == CELLS && IsCell(i)
  {
    if zones[i] != 0 then zones[i]
    else
      var (best, count) := Winner(zones, Ring(i), |Ring(i)|);
      if count >= 3 then best else 0
  }

  ghost function FilledMap(zones: seq<int>): (d: seq<int>)
    requires |zones| == CELLS
    ensures |d| == CELLS && forall i :: 0 <= i < CELLS ==> d[i] == Filled(zones, i)
  {
    seq(CELLS, i requires 0 <= i < CELLS => Filled(zones, i))
  }

  /** One of the first `n` listed cells is empty. */
  ghost predicate GapAmong(map1: seq<int>, ns: seq<int>, n: nat)
    requires n <= |ns| && forall k :: 0 <= k < |ns| ==> 0 <= ns[k] < |map1|
  {
    n > 0 && (GapAmong(map1, ns, n - 1) || map1[ns[n - 1]] == 0)
  }

  lemma {:induction false} GapMeans(map1: seq<int>, ns: seq<int>, n: nat)
    requires n <= |ns| && forall k :: 0 <= k < |ns| ==> 0 <= ns[k] < |map1|
    ensures GapAmong(map1, ns, n) <==> exists k :: 0 <= k < n && map1[ns[k]] == 0
  {
    if n > 0 { GapMeans(map1, ns, n - 1); }
  }

  /** An empty cell borders cell `i`. */
  ghost predicate Holes(map1: seq<int>, i: int)
    requires |map1| == CELLS && IsCell(i)
  {
    GapAmong(map1, Ring(i), |Ring(i)|)
  }

  lemma HolesMeans(map1: seq<int>, i: int)
    requires |map1| == CELLS && IsCell(i)
    ensures Holes(map1, i) <==> exists j :: IsCell(j) && Adjacent(i, j) && map1[j] == 0
  {
    var ns := Ring(i);
    NeighboursAreAdjacent(i);
    GapMeans(map1, ns, |ns|);
    if j :| IsCell(j) && Adjacent(i, j) && map1[j] == 0 {
      var k :| 0 <= k < |ns| && ns[k] == j;
    }
    if k :| 0 <= k < |ns| && map1[ns[k]] == 0 {
      assert ns[k] in ns;
    }
  }

  /** A cell after the fills that border empty space are taken back. */
  ghost function Kept(zones: seq<int>, map1: seq<int>, i: int): int
    requires |zones| == CELLS == |map1| && IsCell(i)
  {
    if zones[i] == 0 && map1[i] != 0 && Holes(map1, i) then 0 else map1[i]
  }

  /** The map after the close. */
  ghost function Closed(zones: seq<int>): (c: seq<int>)
    requires |zones| == CELLS
    ensures |c| == CELLS && forall i :: 0 <= i < CELLS ==> c[i] == Kept(zones, FilledMap(zones), i)
  {
    var d := FilledMap(zones);
    seq(CELLS, i requires 0 <= i < CELLS => Kept(zones, d, i))
  }

  /** A marked cell keeps its label; a filled one takes a label at least three neighbours carry and no
      other label beats, and no cell around it was empty after the filling. */
  lemma CloseNeverRelabels(zones: seq<int>, i: int)
    requires |zones| == CELLS && IsCell(i)
    ensures zones[i] != 0 ==> Closed(zones)[i] == zones[i]
    ensures zones[i] == 0 && Closed(zones)[i] != 0 ==>
      var ring, z := Ring(i), Closed(zones)[i];
      && 1 <= z <= MAX_ZONE && Votes(zones, ring, |ring|, z) >= 3
      && (forall y :: 1 <= y <= MAX_ZONE ==> Votes(zones, ring, |ring|, y) <= Votes(zones, ring, |ring|, z))
      && forall j :: IsCell(j) && Adjacent(i, j) ==> FilledMap(zones)[j] != 0
  {
    WinnerIsMajority(zones, Ring(i), |Ring(i)|);
    HolesMeans(FilledMap(zones), i);
  }

  /** The cells of a set with label `z`. */
  ghost function With(zones: seq<int>, cells: set<int>, z: int): set<int>
    requires forall j :: j in cells ==> 0 <= j < |zones|
  {
    set j | j in cells && zones[j] == z
  }

  lemma WithOneMore(zones: seq<int>, cells: set<int>, x: int, z: int)
    requires (forall j :: j in cells ==> 0 <= j < |zones|) && 0 <= x < |zones| && x !in cells
    ensures |With(zones, cells + {x}, z)| == |With(zones, cells, z)| + if zones[x] == z then 1 else 0
  {
    var before := With(zones, cells, z);
    if zones[x] == z {
      assert With(zones, cells + {x}, z) == before + {x};
    } else {
      assert With(zones, cells + {x}, z) == before;
    }
  }

  /** Cells around `i` with label `z`. */
  ghost function Carriers(zones: seq<int>, i: int, z: int): set<int>
    requires |zones| == CELLS
  {
    With(zones, CellSums.Around(i), z)
  }

  lemma {:induction false} VotesAreCells(zones: seq<int>, ns: seq<int>, n: nat, z: int)
    requires n <= |ns| && forall k :: 0 <= k < |ns| ==> 0 <= ns[k] < |zones|
    requires forall j, k :: 0 <= j < k < |ns| ==> ns[j] != ns[k]
    ensures Votes(zones, ns, n, z) == |With(zones, CellSums.Listed(ns, n), z)|
  {
    if n == 0 {
      assert With(zones, CellSums.Listed(ns, 0), z) == {};
    } else {
      VotesAreCells(zones, ns, n - 1, z);
      assert CellSums.Listed(ns, n) == CellSums.Listed(ns, n - 1) + {ns[n - 1]};
      WithOneMore(zones, CellSums.Listed(ns, n - 1), ns[n - 1], z);
    }
  }

  lemma VotesAreCarriers(zones: seq<int>, i: int, z: int)
    requires |zones| == CELLS && IsCell(i)
    ensures Votes(zones, Ring(i), |Ring(i)|, z) == |Carriers(zones, i, z)|
  {
    CellSums.RingIsAround(i);
    VotesAreCells(zones, Ring(i), |Ring(i)|, z);
  }

  /** Some zone label stands on at least three cells around `i`. */
  ghost predicate Surrounded(zones: seq<int>, i: int)
    requires |zones| == CELLS
  {
    exists z :: 1 <= z <= MAX_ZONE && |Carriers(zones, i, z)| >= 3
  }

  lemma FilledIff(zones: seq<int>, i: int)
    requires |zones| == CELLS && IsCell(i)
    ensures FilledMap(zones)[i] != 0 <==> zones[i] != 0 || Surrounded(zones, i)
  {
    var ring := Ring(i);
    WinnerIsMajority(zones, ring, |ring|);
    forall z ensures Votes(zones, ring, |ring|, z) == |Carriers(zones, i, z)| {
      VotesAreCarriers(zones, i, z);
    }
  }

  /** The close fills an empty cell exactly when it is surrounded and every cell around it is in a zone or surrounded
      too, and then with a label that no other outnumbers there; cells in a zone stay as they are. */
  lemma CloseExactly(zones: seq<int>, i: int)
    requires |zones| == CELLS && IsCell(i)
    ensures zones[i] != 0 ==> Closed(zones)[i] == zones[i]
    ensures zones[i] == 0 ==>
      (Closed(zones)[i] != 0 <==>
         Surrounded(zones, i) && forall j :: j in CellSums.Around(i) ==> zones[j] != 0 || Surrounded(zones, j))
    ensures zones[i] == 0 && Closed(zones)[i] != 0 ==>
      && 1 <= Closed(zones)[i] <= MAX_ZONE && |Carriers(zones, i, Closed(zones)[i])| >= 3
      && forall y :: 1 <= y <= MAX_ZONE ==> |Carriers(zones, i, y)| <= |Carriers(zones, i, Closed(zones)[i])|
  {
    CloseNeverRelabels(zones, i);
    HolesMeans(FilledMap(zones), i);
    FilledIff(zones, i);
    forall j | j in CellSums.Around(i) ensures FilledMap(zones)[j] != 0 <==> zones[j] != 0 || Surrounded(zones, j) {
      FilledIff(zones, j);
    }
    forall z ensures Votes(zones, Ring(i), |Ring(i)|, z) == |Carriers(zones, i, z)| {
      VotesAreCarriers(zones, i, z);
    }
  }

  /** Count the labels around an empty cell. */
  method Poll(zones: seq<int>, ns: seq<int>) returns (best: int, bestCount: int)
    requires forall k :: 0 <= k < |ns| ==> 0 <= ns[k] < |zones|
    ensures (best, bestCount) == Winner(zones, ns, |ns|)
  {
    var counts := seq(MAX_ZONE + 2, _ => 0);
    best, bestCount := 0, 0;
    for d := 0 to |ns|
      invariant |counts| == MAX_ZONE + 2
      invariant forall z :: 1 <= z <= MAX_ZONE ==> counts[z] == Votes(zones, ns, d, z)
      invariant (best, bestCount) == Winner(zones, ns, d)
    {
      var z := zones[ns[d]];
      if z <= 0 || z > MAX_ZONE { continue; }
      counts := counts[z := counts[z] + 1];
      if counts[z] > bestCount { bestCount := counts[z]; best := z; }
    }
  }

  /** Fill empty cells surrounded by zone cells. */
  method Dilate(zones: seq<int>) returns (dilated: seq<int>)
    requires |zones| == CELLS
    ensures dilated == FilledMap(zones)
  {
    dilated := zones;
    for i := 0 to CELLS
      invariant |dilated| == CELLS
      invariant forall k :: 0 <= k < i ==> dilated[k] == FilledMap(zones)[k]
      invariant forall k :: i <= k < CELLS ==> dilated[k] == zones[k]
    {
      var z := FillCell(zones, i);
      dilated := dilated[i := z];
    }
  }

  method FillCell(zones: seq<int>, i: int) returns (z: int)
    requires |zones| == CELLS && IsCell(i)
    ensures z == Filled(zones, i)
  {
    if zones[i] != 0 { return zones[i]; }
    var best, count := Poll(zones, Ring(i));
    return if count >= 3 then best else 0;
  }

  /** Does an empty cell border the filled cell? */
  method FindHole(map1: seq<int>, ns: seq<int>) returns (hole: bool)
    requires forall k :: 0 <= k < |ns| ==> 0 <= ns[k] < |map1|
    ensures hole == GapAmong(map1, ns, |ns|)
  {
    hole := false;
    for d := 0 to |ns|
      invariant hole == GapAmong(map1, ns, d)
    {
      if map1[ns[d]] == 0 { hole := true; }
    }
  }

  method KeepCell(orig: seq<int>, dilated: seq<int>, i: int) returns (z: int)
    requires |orig| == CELLS == |dilated| && IsCell(i)
    ensures z == Kept(orig, dilated, i)
  {
    z := dilated[i];
    if dilated[i] != 0 && orig[i] == 0 {
      var hole := FindHole(dilated, Ring(i));
      if hole { z := 0; }
    }
  }

  /** Take back the fills that border empty space. */
  method Erode(zones: array<int>, orig: seq<int>, dilated: seq<int>, ghost want: seq<int>)
    requires zones.Length == CELLS == |orig| == |dilated| == |want|
    requires forall k :: 0 <= k < CELLS ==> want[k] == Kept(orig, dilated, k)
    modifies zones
    ensures zones[..] == want
  {
    for i := 0 to CELLS
      invariant forall k :: 0 <= k < i ==> zones[k] == want[k]
    {
      var z := KeepCell(orig, dilated, i);
      zones[i] := z;
    }
  }

  /** Fill, then take back. */
  method DilateAndErode(zones: array<int>)
    requires zones.Length == CELLS
    modifies zones
    ensures zones[..] == Closed(old(zones[..]))
  {
    var orig := zones[..];
    var dilated := Dilate(orig);
    Erode(zones, orig, dilated, Closed(orig));
  }
}
