/** Sums over sets of cells, and the scans of a cell's surroundings that compute them. */
module CellSums {
  import opened ZoneGrid

  /** Sum of the entries below `n` whose index is in the set. */
  ghost function SetSum(v: seq<int>, cells: set<int>, n: nat): int
    requires n <= |v|
  {
    if n == 0 then 0 else SetSum(v, cells, n - 1) + if n - 1 in cells then v[n - 1] else 0
  }

  lemma {:induction false} SetSumNothing(v: seq<int>, n: nat)
    requires n <= |v|
    ensures SetSum(v, {}, n) == 0
  {
    if n > 0 { SetSumNothing(v, n - 1); }
  }

  lemma {:induction false} SetSumAdd(v: seq<int>, cells: set<int>, x: int, n: nat)
    requires n <= |v| && 0 <= x < |v| && x !in cells
    ensures SetSum(v, cells + {x}, n) == SetSum(v, cells, n) + if x < n then v[x] else 0
  {
    if n > 0 { SetSumAdd(v, cells, x, n - 1); }
  }

  /** Sum of the first `n` listed entries. */
  ghost function ListSum(v: seq<int>, ns: seq<int>, n: nat): int
    requires n <= |ns| && forall k :: 0 <= k < |ns| ==> 0 <= ns[k] < |v|
  {
    if n == 0 then 0 else ListSum(v, ns, n - 1) + v[ns[n - 1]]
  }

  ghost function Listed(ns: seq<int>, n: nat): (s: set<int>)
    requires n <= |ns|
  {
    set k | 0 <= k < n :: ns[k]
  }

  /** A list without repetition is summed as the set of its entries. */
  lemma {:induction false} ListSumIsSetSum(v: seq<int>, ns: seq<int>, n: nat)
    requires n <= |ns| && forall k :: 0 <= k < |ns| ==> 0 <= ns[k] < |v|
    requires forall j, k :: 0 <= j < k < |ns| ==> ns[j] != ns[k]
    ensures ListSum(v, ns, n) == SetSum(v, Listed(ns, n), |v|)
  {
    if n == 0 {
      assert Listed(ns, 0) == {};
      SetSumNothing(v, |v|);
    } else {
      ListSumIsSetSum(v, ns, n - 1);
      assert Listed(ns, n) == Listed(ns, n - 1) + {ns[n - 1]};
      SetSumAdd(v, Listed(ns, n - 1), ns[n - 1], |v|);
    }
  }

  /** The positive part of the heat map. */
  ghost function Positive(hm: seq<int>): (v: seq<int>)
    requires |hm| == CELLS
    ensures |v| == CELLS && forall i :: 0 <= i < CELLS ==> v[i] == if hm[i] > 0 then hm[i] else 0
  {
    seq(CELLS, i requires 0 <= i < CELLS => if hm[i] > 0 then hm[i] else 0)
  }

  // ----- the cells around a place -----

  /** The cells at most one row and one column from (r, c). */
  ghost function Block(r: int, c: int): set<int> {
    set j | 0 <= j < CELLS && -1 <= Row(j) - r <= 1 && -1 <= Col(j) - c <= 1
  }

  /** Position of a cell of the block in row-major order. */
  ghost function Place(r: int, c: int, j: int): int { (Row(j) - r + 1) * 3 + Col(j) - c + 1 }

  ghost predicate PlacesRise(ns: seq<int>, r: int, c: int, from: int) {
    && (forall k :: 0 <= k < |ns| ==> IsCell(ns[k]) && Place(r, c, ns[k]) >= from)
    && forall j, k :: 0 <= j < k < |ns| ==> Place(r, c, ns[j]) < Place(r, c, ns[k])
  }

  /** Place of the neighbour at offset `d`. */
  ghost function OffsetPlace(d: int): int { if d < 4 then d else d + 1 }

  lemma PlaceOfOffset(i: int, d: nat)
    requires IsCell(i) && d < 8 && OnGrid(Row(i) + DR(d), Col(i) + DC(d))
    ensures Place(Row(i), Col(i), Cell(Row(i) + DR(d), Col(i) + DC(d))) == OffsetPlace(d)
  {
  }

  lemma RiseBefore(x: int, ns: seq<int>, r: int, c: int, from: int, above: int)
    requires IsCell(x) && Place(r, c, x) == from < above && PlacesRise(ns, r, c, above)
    ensures PlacesRise([x] + ns, r, c, from)
  {
  }

  lemma RiseLower(ns: seq<int>, r: int, c: int, from: int, above: int)
    requires from < above && PlacesRise(ns, r, c, above)
    ensures PlacesRise([] + ns, r, c, from)
  {
    assert [] + ns == ns;
  }

  lemma NeighbourRises(i: int, d: nat, rest: seq<int>)
    requires IsCell(i) && d < 8 && PlacesRise(rest, Row(i), Col(i), OffsetPlace(d + 1))
    ensures var (r, c) := (Row(i) + DR(d), Col(i) + DC(d));
      PlacesRise((if OnGrid(r, c) then [Cell(r, c)] else []) + rest, Row(i), Col(i), OffsetPlace(d))
  {
    var (r, c) := (Row(i) + DR(d), Col(i) + DC(d));
    if OnGrid(r, c) {
      PlaceOfOffset(i, d);
      RiseBefore(Cell(r, c), rest, Row(i), Col(i), OffsetPlace(d), OffsetPlace(d + 1));
    } else {
      RiseLower(rest, Row(i), Col(i), OffsetPlace(d), OffsetPlace(d + 1));
    }
  }

  /** The scan of the neighbours lists the block without its centre, each cell once. */
  lemma {:induction false} NeighboursRise(i: int, d: nat)
    requires IsCell(i) && d <= 8
    ensures PlacesRise(Neighbours(i, d), Row(i), Col(i), OffsetPlace(d))
    decreases 8 - d
  {
    if d < 8 {
      NeighboursRise(i, d + 1);
      NeighbourRises(i, d, Neighbours(i, d + 1));
    }
  }

  /** The eight cells around a cell, as far as they are on the grid. */
  ghost function Around(i: int): set<int> { Block(Row(i), Col(i)) - {i} }

  lemma RingIsAround(i: int)
    requires IsCell(i)
    ensures Listed(Ring(i), |Ring(i)|) == Around(i)
    ensures forall j, k :: 0 <= j < k < |Ring(i)| ==> Ring(i)[j] != Ring(i)[k]
  {
    NeighboursAreAdjacent(i);
    NeighboursRise(i, 0);
    var ns := Ring(i);
    forall j | j in Around(i) ensures j in Listed(ns, |ns|) {
      assert j in ns;
    }
    forall j | j in Listed(ns, |ns|) ensures j in Around(i) {
      assert j in ns;
    }
  }
}
