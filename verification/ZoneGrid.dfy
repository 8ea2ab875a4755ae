/** The 40 by 60 sensor grid as a flat array of cells, its eight-neighbourhood, and paths on it. */
module ZoneGrid {
  import opened EngineTypes

  const ROWS: int := 40
  const COLS: int := 60
  const CELLS: int := 2400

  predicate IsCell(i: int) { 0 <= i < CELLS }

  function Row(i: int): int { i / COLS }

  function Col(i: int): int { i % COLS }

  predicate OnGrid(r: int, c: int) { 0 <= r < ROWS && 0 <= c < COLS }

  function Cell(r: int, c: int): (i: int)
    requires OnGrid(r, c)
    ensures IsCell(i) && Row(i) == r && Col(i) == c
  {
    r * COLS + c
  }

  /** The eight cells around a cell. */
  predicate Adjacent(i: int, j: int) {
    && i != j
    && -1 <= Row(i) - Row(j) <= 1
    && -1 <= Col(i) - Col(j) <= 1
  }

  /** Offsets in the order the scans use them. */
  function DR(d: int): int { if d < 3 then -1 else if d < 5 then 0 else 1 }

  function DC(d: int): int {
    if d == 0 || d == 3 || d == 5 then -1 else if d == 1 || d == 6 then 0 else 1
  }

  lemma CellOfCoordinates(i: int)
    requires IsCell(i)
    ensures OnGrid(Row(i), Col(i)) && Cell(Row(i), Col(i)) == i
  {
  }

  lemma OffsetIsAdjacent(i: int, d: int)
    requires IsCell(i) && 0 <= d < 8 && OnGrid(Row(i) + DR(d), Col(i) + DC(d))
    ensures Adjacent(i, Cell(Row(i) + DR(d), Col(i) + DC(d)))
  {
  }

  /** One of the eight offsets leads from `i` to `j`. */
  lemma FindOffset(i: int, j: int) returns (d: nat)
    requires IsCell(i) && IsCell(j) && Adjacent(i, j)
    ensures d < 8 && OnGrid(Row(i) + DR(d), Col(i) + DC(d)) && Cell(Row(i) + DR(d), Col(i) + DC(d)) == j
  {
    CellOfCoordinates(j);
    var k := (Row(j) - Row(i) + 1) * 3 + (Col(j) - Col(i) + 1);
    d := if k < 4 then k else k - 1;
  }

  /** The neighbours of a cell that lie on the grid, from offset `d` on, in scan order. */
  function Neighbours(i: int, d: nat): (ns: seq<int>)
    requires IsCell(i) && d <= 8
    decreases 8 - d, i
  {
    if d == 8 then []
    else
      var (r, c) := (Row(i) + DR(d), Col(i) + DC(d));
      (if OnGrid(r, c) then [Cell(r, c)] else []) + Neighbours(i, d + 1)
  }

  lemma {:induction false} NeighboursOnly(i: int, d: nat)
    requires IsCell(i) && d <= 8
    ensures forall j :: j in Neighbours(i, d) ==> IsCell(j) && Adjacent(i, j)
    decreases 8 - d
  {
    if d < 8 {
      NeighboursOnly(i, d + 1);
      if OnGrid(Row(i) + DR(d), Col(i) + DC(d)) { OffsetIsAdjacent(i, d); }
    }
  }

  lemma {:induction false} NeighbourListed(i: int, d: nat, k: nat)
    requires IsCell(i) && d <= k < 8 && OnGrid(Row(i) + DR(k), Col(i) + DC(k))
    ensures Cell(Row(i) + DR(k), Col(i) + DC(k)) in Neighbours(i, d)
    decreases 8 - d
  {
    if d < k { NeighbourListed(i, d + 1, k); }
  }

  lemma AdjacentListed(i: int, j: int)
    requires IsCell(i) && IsCell(j) && Adjacent(i, j)
    ensures j in Neighbours(i, 0)
  {
    var d := FindOffset(i, j);
    NeighbourListed(i, 0, d);
  }

  /** The scan visits exactly the adjacent cells. */
  lemma NeighboursAreAdjacent(i: int)
    requires IsCell(i)
    ensures forall j :: j in Neighbours(i, 0) <==> IsCell(j) && Adjacent(i, j)
  {
    NeighboursOnly(i, 0);
    forall j | IsCell(j) && Adjacent(i, j) ensures j in Neighbours(i, 0) {
      AdjacentListed(i, j);
    }
  }

  /** Neighbours of a cell, in scan order. */
  function Ring(i: int): (ns: seq<int>)
    requires IsCell(i)
    ensures forall k :: 0 <= k < |ns| ==> IsCell(ns[k])
  {
    NeighboursAreAdjacent(i);
    assert forall k :: 0 <= k < |Neighbours(i, 0)| ==> Neighbours(i, 0)[k] in Neighbours(i, 0);
    Neighbours(i, 0)
  }

  // ----- connection through open cells -----

  /** Every step is to an adjacent cell, and every cell after the first is open. */
  ghost predicate IsPath(open: set<int>, path: seq<int>) {
    && |path| > 0
    && (forall k :: 0 <= k < |path| - 1 ==> Adjacent(path[k], path[k + 1]))
    && (forall k :: 1 <= k < |path| ==> path[k] in open)
  }

  ghost predicate Joined(open: set<int>, s: int, t: int) {
    exists path :: IsPath(open, path) && path[0] == s && path[|path| - 1] == t
  }

  lemma JoinedSelf(open: set<int>, s: int)
    ensures Joined(open, s, s)
  {
    assert IsPath(open, [s]);
  }

  lemma JoinedStep(open: set<int>, s: int, t: int, j: int)
    requires Joined(open, s, t) && Adjacent(t, j) && j in open
    ensures Joined(open, s, j)
  {
    var path :| IsPath(open, path) && path[0] == s && path[|path| - 1] == t;
    var longer := path + [j];
    assert IsPath(open, longer) && longer[0] == s && longer[|longer| - 1] == j;
  }

  lemma {:induction false} JoinedTrans(open: set<int>, s: int, t: int, path: seq<int>)
    requires Joined(open, s, t) && IsPath(open, path) && path[0] == t
    ensures Joined(open, s, path[|path| - 1])
  {
    if |path| > 1 {
      var k := |path| - 1;
      assert IsPath(open, path[..k]);
      JoinedTrans(open, s, t, path[..k]);
      JoinedStep(open, s, path[k - 1], path[k]);
    }
  }

  /** Inside the open cells, connection runs both ways. */
  lemma {:induction false} PathBack(open: set<int>, path: seq<int>)
    requires IsPath(open, path) && path[0] in open
    ensures Joined(open, path[|path| - 1], path[0])
  {
    var k := |path| - 1;
    if k == 0 {
      JoinedSelf(open, path[0]);
    } else {
      assert IsPath(open, path[..k]);
      PathBack(open, path[..k]);
      var back :| IsPath(open, back) && back[0] == path[k - 1] && back[|back| - 1] == path[0];
      assert path[k - 1] in open;
      var all := [path[k]] + back;
      assert Adjacent(path[k - 1], path[k]);
      assert IsPath(open, all) && all[|all| - 1] == path[0];
    }
  }

  /** A set holding the start and closed under open neighbours holds everything the start is joined to. */
  lemma {:induction false} ClosedHoldsPath(open: set<int>, closed: set<int>, path: seq<int>)
    requires IsPath(open, path) && path[0] in closed
    requires forall i, j :: i in closed && j in open && Adjacent(i, j) ==> j in closed
    ensures path[|path| - 1] in closed
  {
    if |path| > 1 {
      var k := |path| - 1;
      assert IsPath(open, path[..k]);
      ClosedHoldsPath(open, closed, path[..k]);
    }
  }

  // ----- lists of cells without repetition -----

  ghost predicate Distinct(s: seq<int>) {
    |s| == 0 || (s[|s| - 1] !in s[..|s| - 1] && Distinct(s[..|s| - 1]))
  }

  lemma DistinctAppend(s: seq<int>, x: int)
    requires Distinct(s) && x !in s
    ensures Distinct(s + [x])
  {
    assert (s + [x])[..|s|] == s;
  }

  /** No cell is listed twice. */
  lemma {:induction false} DistinctMeans(s: seq<int>)
    ensures Distinct(s) <==> forall i, j :: 0 <= i < j < |s| ==> s[i] != s[j]
  {
    if |s| > 0 {
      var n := |s| - 1;
      DistinctMeans(s[..n]);
      if Distinct(s) {
        forall i, j | 0 <= i < j < |s| ensures s[i] != s[j] {
          if j < n { assert s[..n][i] != s[..n][j]; } else { assert s[..n][i] == s[i]; }
        }
      } else if s[n] in s[..n] {
        var i :| 0 <= i < n && s[..n][i] == s[n];
        assert s[i] == s[n];
      } else {
        var i, j :| 0 <= i < j < n && s[..n][i] == s[..n][j];
        assert s[i] == s[j];
      }
    }
  }

  /** A list of distinct numbers below `n` is no longer than `n`. */
  lemma DistinctCells(s: seq<int>, n: nat)
    requires Distinct(s) && forall i :: 0 <= i < |s| ==> 0 <= s[i] < n
    ensures |s| <= n
  {
    DistinctMeans(s);
    DistinctBelow(seq(|s|, i requires 0 <= i < |s| => s[i] + 1), n);
  }
}
