/** The breadth-first flood of one zone from its peak. */
module ZoneFlood {
  import opened ZoneGrid
  import opened ZoneInfo
  import opened Worklist

  ghost predicate OnCells(s: seq<int>) { |s| == CELLS }

  /** Cells the flood may enter as core pixels: unmarked and at least at the threshold. */
  ghost function Free(hm: seq<int>, zones: seq<int>, thold: int): set<int>
    requires OnCells(hm) && OnCells(zones)
  {
    set i | 0 <= i < CELLS && zones[i] == 0 && hm[i] >= thold
  }

  ghost predicate Unused(zones: seq<int>, zid: int)
    requires OnCells(zones)
  {
    forall j :: 0 <= j < CELLS ==> zones[j] != zid
  }

  /** A positive cell next to a core cell. */
  ghost predicate Beside(hm: seq<int>, core: set<int>, j: int)
    requires OnCells(hm)
  {
    IsCell(j) && hm[j] > 0 && exists c :: c in core && Adjacent(c, j)
  }

  /** A cell of another zone next to `i`. */
  ghost predicate MeetsZone(zones0: seq<int>, i: int, j: int)
    requires OnCells(zones0)
  {
    IsCell(j) && Adjacent(i, j) && zones0[j] != 0
  }

  /** The finished flood: exactly the cells joined to the seed are core, exactly their weaker positive
      neighbours are marked besides, and the map shows the marks. */
  ghost predicate Flooded(hm: seq<int>, zones0: seq<int>, zones: seq<int>, zid: int, thold: int, seed: int,
                          core: set<int>, marked: set<int>)
    requires OnCells(hm) && OnCells(zones0) && OnCells(zones)
  {
    && (forall j :: j in core <==> IsCell(j) && Joined(Free(hm, zones0, thold), seed, j))
    && (forall j :: j in marked <==>
          j in core || (IsCell(j) && zones0[j] == 0 && hm[j] < thold && Beside(hm, core, j)))
    && (forall j :: 0 <= j < CELLS ==> zones[j] == if j in marked then zid else zones0[j])
  }

  // ----- the sets and the list of marked pixels -----

  /** Mid-flood: core pixels are joined to the seed, the other marked pixels lie beside a core pixel. */
  ghost predicate Growing(hm: seq<int>, zones0: seq<int>, zones: seq<int>, zid: int, thold: int, seed: int,
                          core: set<int>, marked: set<int>)
  {
    && OnCells(hm) && OnCells(zones0) && OnCells(zones) && zid != 0 && thold >= 1
    && seed in core && core <= marked
    && (forall j :: j in marked ==> IsCell(j) && zones0[j] == 0)
    && (forall j :: j in core ==> (j == seed || hm[j] >= thold) && Joined(Free(hm, zones0, thold), seed, j))
    && (forall j :: j in marked && j !in core ==> hm[j] < thold && Beside(hm, core, j))
    && (forall j :: 0 <= j < CELLS ==> zones[j] == if j in marked then zid else zones0[j])
  }

  /** `ps` lists every marked cell once, with its signal. */
  ghost predicate Listed(hm: seq<int>, ps: seq<Pixel>, core: set<int>, marked: set<int>)
    requires OnCells(hm)
  {
    if |ps| == 0 then core == {} && marked == {}
    else
      var p := ps[|ps| - 1];
      && p.cell in marked && IsCell(p.cell) && p.sig == hm[p.cell] && (p.core <==> p.cell in core)
      && Listed(hm, ps[..|ps| - 1], core - {p.cell}, marked - {p.cell})
  }

  lemma ListOneMore(hm: seq<int>, ps: seq<Pixel>, core: set<int>, marked: set<int>, j: int, isCore: bool)
    requires OnCells(hm) && Listed(hm, ps, core, marked) && IsCell(j) && j !in marked && core <= marked
    ensures Listed(hm, ps + [Pixel(j, hm[j], isCore)], if isCore then core + {j} else core, marked + {j})
  {
    assert (ps + [Pixel(j, hm[j], isCore)])[..|ps|] == ps;
    assert (if isCore then core + {j} else core) - {j} == core;
    assert marked + {j} - {j} == marked;
  }

  /** A list of all of a set but `x`, and `x`. */
  lemma ListGrows(before: seq<int>, all: set<int>, x: int)
    requires Distinct(before) && x in all && forall j :: j in before <==> j in all - {x}
    ensures Distinct(before + [x]) && forall j :: j in before + [x] <==> j in all
  {
    DistinctAppend(before, x);
  }

  /** The list and the sets say the same. */
  lemma {:induction false} ListedCells(hm: seq<int>, ps: seq<Pixel>, core: set<int>, marked: set<int>)
    requires OnCells(hm) && Listed(hm, ps, core, marked)
    ensures Distinct(Cells(ps)) && forall j :: j in Cells(ps) <==> j in marked
  {
    if |ps| > 0 {
      var init, p := ps[..|ps| - 1], ps[|ps| - 1];
      ListedCells(hm, init, core - {p.cell}, marked - {p.cell});
      assert Cells(ps) == Cells(init) + [p.cell];
      ListGrows(Cells(init), marked, p.cell);
    }
  }

  lemma {:induction false} ListedCore(hm: seq<int>, ps: seq<Pixel>, core: set<int>, marked: set<int>)
    requires OnCells(hm) && Listed(hm, ps, core, marked)
    ensures Distinct(CoreCells(ps)) && forall j :: j in CoreCells(ps) <==> j in core
  {
    if |ps| > 0 {
      var init, p := ps[..|ps| - 1], ps[|ps| - 1];
      ListedCore(hm, init, core - {p.cell}, marked - {p.cell});
      if p.core {
        assert CoreCells(ps) == CoreCells(init) + [p.cell];
        ListGrows(CoreCells(init), core, p.cell);
      } else {
        assert CoreCells(ps) == CoreCells(init) && core - {p.cell} == core;
      }
    }
  }

  /** Weighted signal of the cells of a set below `n`. */
  ghost function SumOver(hm: seq<int>, core: set<int>, w: Weight, n: nat): int
    requires OnCells(hm) && n <= CELLS
  {
    if n == 0 then 0 else SumOver(hm, core, w, n - 1) + if n - 1 in core then Factor(w, n - 1) * hm[n - 1] else 0
  }

  lemma {:induction false} SumWithout(hm: seq<int>, core: set<int>, w: Weight, n: nat, x: int)
    requires OnCells(hm) && n <= CELLS && x in core && IsCell(x)
    ensures SumOver(hm, core, w, n) == SumOver(hm, core - {x}, w, n) + if x < n then Factor(w, x) * hm[x] else 0
  {
    if n > 0 { SumWithout(hm, core, w, n - 1, x); }
  }

  lemma {:induction false} SumOverNothing(hm: seq<int>, w: Weight, n: nat)
    requires OnCells(hm) && n <= CELLS
    ensures SumOver(hm, {}, w, n) == 0
  {
    if n > 0 { SumOverNothing(hm, w, n - 1); }
  }

  /** Whatever the order of the pixels, the sums are those over the core cells. */
  lemma {:induction false} SumsOverCore(hm: seq<int>, ps: seq<Pixel>, core: set<int>, marked: set<int>, w: Weight)
    requires OnCells(hm) && Listed(hm, ps, core, marked)
    ensures CoreSum(ps, w) == SumOver(hm, core, w, CELLS)
  {
    if |ps| == 0 {
      SumOverNothing(hm, w, CELLS);
    } else {
      var init, p := ps[..|ps| - 1], ps[|ps| - 1];
      SumsOverCore(hm, init, core - {p.cell}, marked - {p.cell}, w);
      if p.core {
        SumWithout(hm, core, w, CELLS, p.cell);
      } else {
        assert core - {p.cell} == core;
      }
    }
  }

  /** Marking a positive unmarked neighbour of a core pixel. */
  lemma MarkKeepsGrowing(hm: seq<int>, zones0: seq<int>, zones: seq<int>, zid: int, thold: int, seed: int,
                         core: set<int>, marked: set<int>, c: int, j: int)
    requires Growing(hm, zones0, zones, zid, thold, seed, core, marked)
    requires c in core && IsCell(j) && Adjacent(c, j) && zones[j] == 0 && hm[j] > 0
    ensures Growing(hm, zones0, zones[j := zid], zid, thold, seed, if hm[j] >= thold then core + {j}
            else core, marked + {j})
  {
    if hm[j] >= thold { JoinedStep(Free(hm, zones0, thold), seed, c, j); }
  }

  // ----- what is left to do -----

  /** A neighbour needs no more attention. */
  ghost predicate Handled(hm: seq<int>, zones0: seq<int>, marked: set<int>, j: int)
    requires OnCells(hm) && OnCells(zones0)
  {
    IsCell(j) && zones0[j] == 0 && hm[j] > 0 ==> j in marked
  }

  ghost predicate HandledAround(hm: seq<int>, zones0: seq<int>, marked: set<int>, i: int)
    requires OnCells(hm) && OnCells(zones0)
  {
    forall j :: IsCell(j) && Adjacent(i, j) ==> Handled(hm, zones0, marked, j)
  }

  /** When every core pixel's neighbours are handled the flood is finished. */
  lemma DoneIsFlooded(hm: seq<int>, zones0: seq<int>, zones: seq<int>, zid: int, thold: int, seed: int, core: set<int>,
                      marked: set<int>)
    requires Growing(hm, zones0, zones, zid, thold, seed, core, marked)
    requires forall i :: i in core ==> HandledAround(hm, zones0, marked, i)
    ensures Flooded(hm, zones0, zones, zid, thold, seed, core, marked)
  {
    var free := Free(hm, zones0, thold);
    forall a, b | a in core && b in free && Adjacent(a, b) ensures b in core {
      assert HandledAround(hm, zones0, marked, a) && Handled(hm, zones0, marked, b);
    }
    forall j | Joined(free, seed, j) ensures j in core {
      var path :| IsPath(free, path) && path[0] == seed && path[|path| - 1] == j;
      ClosedHoldsPath(free, core, path);
    }
    forall j | IsCell(j) && zones0[j] == 0 && Beside(hm, core, j) ensures j in marked {
      var c :| c in core && Adjacent(c, j);
      assert HandledAround(hm, zones0, marked, c) && Handled(hm, zones0, marked, j);
    }
  }

  // ----- the loops -----

  ghost predicate SameHeader(u: Unit, u0: Unit) {
    && u.kind == u0.kind && u.peakIndices == u0.peakIndices
    && u.peakCol == u0.peakCol && u.peakRow == u0.peakRow && u.peakSig == u0.peakSig
  }

  /** The sums kept for the zone are those of its marked pixels. */
  ghost predicate Counted(hm: seq<int>, ps: seq<Pixel>, core: set<int>, marked: set<int>, u: Unit, e: EdgeInfo)
    requires OnCells(hm)
  {
    Listed(hm, ps, core, marked) && Accumulates(u, ps) && Describes(e, ps)
  }

  /** The sums for one more pixel. */
  method Count(hm: seq<int>, j: int, isCore: bool, u0: Unit, e0: EdgeInfo, ghost ps0: seq<Pixel>, ghost core: set<int>,
               ghost marked: set<int>)
    returns (u: Unit, e: EdgeInfo, ghost ps: seq<Pixel>)
    requires OnCells(hm) && Counted(hm, ps0, core, marked, u0, e0)
    requires IsCell(j) && j !in marked && core <= marked && hm[j] > 0
    ensures Counted(hm, ps, if isCore then core + {j} else core, marked + {j}, u, e)
    ensures SameHeader(u, u0) && u.overlap == u0.overlap
  {
    ps := ps0 + [Pixel(j, hm[j], isCore)];
    ListOneMore(hm, ps0, core, marked, j, isCore);
    if isCore {
      u := AddPixel(u0, j, hm[j], ps0);
    } else {
      u := AddEdgePixel(u0, j, hm[j], ps0);
    }
    e := UpdateEdgeInfo(e0, j, hm[j], isCore, ps0);
  }

  /** One of the first `n` cells of the list belongs to another zone. */
  ghost predicate Overlaps(zones0: seq<int>, cells: seq<int>, n: nat)
    requires OnCells(zones0) && n <= |cells|
  {
    n > 0 && (Overlaps(zones0, cells, n - 1) || (IsCell(cells[n - 1]) && zones0[cells[n - 1]] != 0))
  }

  lemma {:induction false} OverlapsWhenSome(zones0: seq<int>, cells: seq<int>, n: nat)
    requires OnCells(zones0) && n <= |cells|
    ensures Overlaps(zones0, cells, n) <==> exists k :: 0 <= k < n && IsCell(cells[k]) && zones0[cells[k]] != 0
  {
    if n > 0 { OverlapsWhenSome(zones0, cells, n - 1); }
  }

  lemma MeetsIsOverlap(zones0: seq<int>, i: int)
    requires OnCells(zones0) && IsCell(i)
    ensures Overlaps(zones0, Neighbours(i, 0), |Neighbours(i, 0)|) <==> exists j :: MeetsZone(zones0, i, j)
  {
    var ns := Neighbours(i, 0);
    NeighboursAreAdjacent(i);
    OverlapsWhenSome(zones0, ns, |ns|);
    if j :| MeetsZone(zones0, i, j) {
      var k :| 0 <= k < |ns| && ns[k] == j;
    }
    if k :| 0 <= k < |ns| && IsCell(ns[k]) && zones0[ns[k]] != 0 {
      assert ns[k] in ns;
      assert MeetsZone(zones0, i, ns[k]);
    }
  }

  /** Mark the neighbour `j` of the core pixel `i` if it is free and positive. */
  method Mark(hm: seq<int>, zones: array<int>, zid: int, thold: int, i: int, j: int, q0: seq<int>, u0: Unit,
              e0: EdgeInfo, ghost zones0: seq<int>, ghost seed: int, ghost core0: set<int>, ghost marked0: set<int>,
              ghost ps0: seq<Pixel>, ghost done: set<int>)
    returns (q: seq<int>, u: Unit, e: EdgeInfo, ghost core: set<int>, ghost marked: set<int>, ghost ps: seq<Pixel>)
    requires Growing(hm, zones0, zones[..], zid, thold, seed, core0, marked0)
    requires i in core0 && IsCell(j) && Adjacent(i, j) && zones[..][j] == 0
    requires Counted(hm, ps0, core0, marked0, u0, e0)
    requires Pending(q0, core0, done) && done <= core0
    modifies zones
    ensures Growing(hm, zones0, zones[..], zid, thold, seed, core, marked)
    ensures core0 <= core && marked0 <= marked && Pending(q, core, done)
    ensures Handled(hm, zones0, marked, j)
    ensures Counted(hm, ps, core, marked, u, e) && SameHeader(u, u0) && u.overlap == u0.overlap
  {
    q, u, e, core, marked, ps := q0, u0, e0, core0, marked0, ps0;
    ghost var before := zones[..];
    var sig := hm[j];
    if sig >= thold {
      zones[j] := zid;
      q := q + [j];
      u, e, ps := Count(hm, j, true, u, e, ps, core, marked);
      core, marked := core + {j}, marked + {j};
    } else if sig > 0 {
      zones[j] := zid;
      u, e, ps := Count(hm, j, false, u, e, ps, core, marked);
      marked := marked + {j};
    } else {
      return;
    }
    MarkKeepsGrowing(hm, zones0, before, zid, thold, seed, core0, marked0, i, j);
    assert zones[..] == before[j := zid];
  }

  /** Look at the neighbour `j` of the core pixel `i`. */
  method Look(hm: seq<int>, zones: array<int>, zid: int, thold: int, i: int, j: int, q0: seq<int>, u0: Unit,
              e0: EdgeInfo, ghost zones0: seq<int>, ghost seed: int, ghost core0: set<int>, ghost marked0: set<int>,
              ghost ps0: seq<Pixel>, ghost done: set<int>)
    returns (q: seq<int>, u: Unit, e: EdgeInfo, ghost core: set<int>, ghost marked: set<int>, ghost ps: seq<Pixel>)
    requires Growing(hm, zones0, zones[..], zid, thold, seed, core0, marked0) && Unused(zones0, zid)
    requires i in core0 && IsCell(j) && Adjacent(i, j)
    requires Counted(hm, ps0, core0, marked0, u0, e0)
    requires Pending(q0, core0, done) && done <= core0
    modifies zones
    ensures Growing(hm, zones0, zones[..], zid, thold, seed, core, marked)
    ensures core0 <= core && marked0 <= marked && Pending(q, core, done)
    ensures Handled(hm, zones0, marked, j)
    ensures Counted(hm, ps, core, marked, u, e) && SameHeader(u, u0)
    ensures u.overlap == (u0.overlap || zones0[j] != 0)
  {
    assert zones[..][j] == zones[j];
    if zones[j] != 0 {
      q, u, e, core, marked, ps := q0, u0, e0, core0, marked0, ps0;
      if zones[j] != zid { u := u.(overlap := true); }
    } else {
      q, u, e, core, marked,
        ps := Mark(hm, zones, zid, thold, i, j, q0, u0, e0, zones0, seed, core0, marked0, ps0, done);
    }
  }

  /** The first `d` neighbours need no more attention. */
  ghost predicate HandledFirst(hm: seq<int>, zones0: seq<int>, marked: set<int>, ns: seq<int>, d: nat)
    requires OnCells(hm) && OnCells(zones0) && d <= |ns|
  {
    d == 0 || (HandledFirst(hm, zones0, marked, ns, d - 1) && Handled(hm, zones0, marked, ns[d - 1]))
  }

  lemma {:induction false} HandledFirstGrows(hm: seq<int>, zones0: seq<int>, marked: set<int>, marked': set<int>,
                                             ns: seq<int>, d: nat)
    requires OnCells(hm) && OnCells(zones0) && d <= |ns| && marked <= marked' && HandledFirst(hm, zones0, marked, ns, d)
    ensures HandledFirst(hm, zones0, marked', ns, d)
  {
    if d > 0 { HandledFirstGrows(hm, zones0, marked, marked', ns, d - 1); }
  }

  lemma {:induction false} HandledFirstMeans(hm: seq<int>, zones0: seq<int>, marked: set<int>, ns: seq<int>, d: nat)
    requires OnCells(hm) && OnCells(zones0) && d <= |ns| && HandledFirst(hm, zones0, marked, ns, d)
    ensures forall k :: 0 <= k < d ==> Handled(hm, zones0, marked, ns[k])
  {
    if d > 0 { HandledFirstMeans(hm, zones0, marked, ns, d - 1); }
  }

  /** The neighbours `ns` of the core pixel `i`, in scan order. */
  method Expand(hm: seq<int>, zones: array<int>, zid: int, thold: int, i: int, ns: seq<int>, q0: seq<int>, u0: Unit,
                e0: EdgeInfo, ghost zones0: seq<int>, ghost seed: int, ghost core0: set<int>, ghost marked0: set<int>,
                ghost ps0: seq<Pixel>, ghost done: set<int>)
    returns (q: seq<int>, u: Unit, e: EdgeInfo, ghost core: set<int>, ghost marked: set<int>, ghost ps: seq<Pixel>)
    requires Growing(hm, zones0, zones[..], zid, thold, seed, core0, marked0) && Unused(zones0, zid)
    requires i in core0 && forall k :: 0 <= k < |ns| ==> IsCell(ns[k]) && Adjacent(i, ns[k])
    requires Counted(hm, ps0, core0, marked0, u0, e0)
    requires Pending(q0, core0, done) && done <= core0
    modifies zones
    ensures Growing(hm, zones0, zones[..], zid, thold, seed, core, marked)
    ensures core0 <= core && marked0 <= marked && Pending(q, core, done)
    ensures HandledFirst(hm, zones0, marked, ns, |ns|)
    ensures Counted(hm, ps, core, marked, u, e) && SameHeader(u, u0)
    ensures u.overlap == (u0.overlap || Overlaps(zones0, ns, |ns|))
  {
    q, u, e, core, marked, ps := q0, u0, e0, core0, marked0, ps0;
    for d := 0 to |ns|
      invariant Growing(hm, zones0, zones[..], zid, thold, seed, core, marked)
      invariant core0 <= core && marked0 <= marked && Pending(q, core, done)
      invariant HandledFirst(hm, zones0, marked, ns, d)
      invariant Counted(hm, ps, core, marked, u, e) && SameHeader(u, u0)
      invariant u.overlap == (u0.overlap || Overlaps(zones0, ns, d))
    {
      ghost var before := marked;
      q, u, e, core, marked, ps := Look(hm, zones, zid, thold, i, ns[d], q, u, e, zones0, seed, core, marked, ps, done);
      HandledFirstGrows(hm, zones0, before, marked, ns, d);
    }
  }

  /** One of the dequeued core pixels touches another zone. */
  ghost predicate MetZones(zones0: seq<int>, done: set<int>)
    requires OnCells(zones0)
  {
    exists i, j :: i in done && MeetsZone(zones0, i, j)
  }

  /** What dequeuing core pixel `i` settles. */
  lemma Dequeued(hm: seq<int>, zones0: seq<int>, marked1: set<int>, marked: set<int>, done: set<int>, i: int)
    requires OnCells(hm) && OnCells(zones0) && marked1 <= marked && IsCell(i)
    requires forall c :: c in done ==> HandledAround(hm, zones0, marked1, c)
    requires HandledFirst(hm, zones0, marked, Neighbours(i, 0), |Neighbours(i, 0)|)
    ensures forall c :: c in done + {i} ==> HandledAround(hm, zones0, marked, c)
    ensures MetZones(zones0, done + {i})
       <==> MetZones(zones0, done) || Overlaps(zones0, Neighbours(i, 0), |Neighbours(i, 0)|)
  {
    MeetsIsOverlap(zones0, i);
    NeighboursAreAdjacent(i);
    HandledFirstMeans(hm, zones0, marked, Neighbours(i, 0), |Neighbours(i, 0)|);
    forall j | IsCell(j) && Adjacent(i, j) ensures Handled(hm, zones0, marked, j) {
      var n :| 0 <= n < |Neighbours(i, 0)| && Neighbours(i, 0)[n] == j;
    }
    forall c, j | c in done && IsCell(j) && Adjacent(c, j) ensures Handled(hm, zones0, marked, j) {
      assert HandledAround(hm, zones0, marked1, c);
      assert Handled(hm, zones0, marked1, j);
    }
    if j :| MeetsZone(zones0, i, j) {
      assert i in done + {i};
    }
    if c, j :| c in done && MeetsZone(zones0, c, j) {
      assert c in done + {i};
    }
  }

  ghost function AllCells(n: nat): (s: set<int>)
    ensures forall j :: j in s <==> 0 <= j < n
  {
    if n == 0 then {} else AllCells(n - 1) + {n - 1}
  }

  /** Next core pixel off the queue, and its neighbours. */
  method Dequeue(hm: seq<int>, zones: array<int>, zid: int, thold: int, q0: seq<int>, u0: Unit, e0: EdgeInfo,
                 ghost zones0: seq<int>, ghost seed: int, ghost core0: set<int>, ghost marked0: set<int>,
                 ghost ps0: seq<Pixel>, ghost done0: set<int>)
    returns (q: seq<int>, u: Unit, e: EdgeInfo, ghost core: set<int>, ghost marked: set<int>, ghost ps: seq<Pixel>,
      ghost done: set<int>)
    requires Growing(hm, zones0, zones[..], zid, thold, seed, core0, marked0) && Unused(zones0, zid)
    requires Counted(hm, ps0, core0, marked0, u0, e0)
    requires |q0| > 0 && Pending(q0, core0, done0) && done0 <= core0
    requires forall c :: c in done0 ==> HandledAround(hm, zones0, marked0, c)
    requires u0.overlap == MetZones(zones0, done0)
    modifies zones
    ensures Growing(hm, zones0, zones[..], zid, thold, seed, core, marked)
    ensures Counted(hm, ps, core, marked, u, e) && SameHeader(u, u0)
    ensures Pending(q, core, done) && done <= core && q0[0] !in done0 && done == done0 + {q0[0]}
    ensures forall c :: c in done ==> HandledAround(hm, zones0, marked, c)
    ensures u.overlap == MetZones(zones0, done)
  {
    var i := q0[0];
    PopPending(q0, core0, done0);
    done := done0 + {i};
    var ns := Neighbours(i, 0);
    NeighboursAreAdjacent(i);
    forall k | 0 <= k < |ns| ensures IsCell(ns[k]) && Adjacent(i, ns[k]) { assert ns[k] in ns; }
    q, u, e, core, marked,
      ps := Expand(hm, zones, zid, thold, i, ns, q0[1..], u0, e0, zones0, seed, core0, marked0, ps0, done);
    Dequeued(hm, zones0, marked0, marked, done0, i);
  }

  lemma NothingCounted(hm: seq<int>, u: Unit)
    requires OnCells(hm) && Accumulates(u, [])
    ensures Counted(hm, [], {}, {}, u, NO_EDGE)
  {
  }

  /** The seed is the first core pixel. */
  method Seed(hm: seq<int>, zones: array<int>, zid: int, thold: int, seed: int, u0: Unit)
    returns (u: Unit, e: EdgeInfo, ghost ps: seq<Pixel>)
    requires OnCells(hm) && zones.Length == CELLS && IsCell(seed) && zones[..][seed] == 0 && zid != 0 && thold >= 1
    requires hm[seed] > 0 && Accumulates(u0, [])
    modifies zones
    ensures Growing(hm, old(zones[..]), zones[..], zid, thold, seed, {seed}, {seed})
    ensures Counted(hm, ps, {seed}, {seed}, u, e) && SameHeader(u, u0) && u.overlap == u0.overlap
  {
    ghost var zones0 := zones[..];
    zones[seed] := zid;
    NothingCounted(hm, u0);
    u, e, ps := Count(hm, seed, true, u0, NO_EDGE, [], {}, {});
    assert {} + {seed} == {seed};
    assert zones[..] == zones0[seed := zid];
  }

  /** The whole flood. Every core pixel is dequeued exactly once, so it ends. */
  method FloodFill(hm: seq<int>, zones: array<int>, zid: int, thold: int, seed: int, u0: Unit)
    returns (u: Unit, e: EdgeInfo, ghost core: set<int>, ghost marked: set<int>, ghost ps: seq<Pixel>)
    requires OnCells(hm) && zones.Length == CELLS && IsCell(seed) && zones[..][seed] == 0 && zid != 0 && thold >= 1
    requires Unused(zones[..], zid) && hm[seed] > 0
    requires Accumulates(u0, []) && !u0.overlap
    modifies zones
    ensures Flooded(hm, old(zones[..]), zones[..], zid, thold, seed, core, marked)
    ensures seed in core
    ensures Counted(hm, ps, core, marked, u, e) && SameHeader(u, u0)
    ensures e.touchesBorder <==> exists c :: c in core && OnBorder(c)
    ensures e.nearBorder <==> exists c :: c in core && NearBorder(c)
    ensures u.overlap == MetZones(old(zones[..]), core)
  {
    ghost var zones0 := zones[..];
    var q := [seed];
    u, e, ps := Seed(hm, zones, zid, thold, seed, u0);
    core, marked := {seed}, {seed};
    ghost var done: set<int> := {};
    assert Pending(q, core, done);
    while |q| > 0
      invariant Growing(hm, zones0, zones[..], zid, thold, seed, core, marked)
      invariant Counted(hm, ps, core, marked, u, e) && SameHeader(u, u0)
      invariant Pending(q, core, done) && done <= core
      invariant forall c :: c in done ==> HandledAround(hm, zones0, marked, c)
      invariant u.overlap == MetZones(zones0, done)
      decreases AllCells(CELLS) - done
    {
      PopPending(q, core, done);
      assert q[0] in AllCells(CELLS) - done;
      q, u, e, core, marked, ps, done := Dequeue(hm, zones, zid, thold, q, u, e, zones0, seed, core, marked, ps, done);
    }
    DoneIsFlooded(hm, zones0, zones[..], zid, thold, seed, core, marked);
    ListedCore(hm, ps, core, marked);
    e := GetEdgeTouchedFlag(e, ps);
  }
}
