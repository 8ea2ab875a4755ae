/** From zone sums to contacts: centroids, their bounds, and the cut to the strongest touches. */
module ZoneContacts {
  import opened EngineTypes
  import opened ZoneGrid
  import opened ZoneInfo
  import opened ZoneFlood
  import opened ZoneRun
  import opened Sorting

  /** Weighted position in 1/256 of a cell, as the integer arithmetic gives it, half a cell in. */
  function Centroid(weighted: int, total: int): real
    requires total != 0
  {
    (TruncDiv(weighted * 2, total) + 0x80) as real / 256.0
  }

  function SingleContact(u: Unit, id: int): Contact
    requires u.weightTotal != 0
  {
    BLANK.(id := id, x := Centroid(u.weightedColSum, u.weightTotal), y := Centroid(u.weightedRowSum, u.weightTotal),
           area := u.area, signalSum := u.signalSum, state := StateDown)
  }

  /** The cells of the 3 by 3 window that lie on the grid, from position `d` on. */
  function Window(r: int, c: int, d: nat): (ns: seq<int>)
    requires d <= 9
    ensures forall k :: 0 <= k < |ns| ==> IsCell(ns[k]) && -1 <= Row(ns[k]) - r <= 1 && -1 <= Col(ns[k]) - c <= 1
    decreases 9 - d, r, c
  {
    if d == 9 then []
    else
      var (nr, nc) := (r + d / 3 - 1, c + d % 3 - 1);
      (if OnGrid(nr, nc) then [Cell(nr, nc)] else []) + Window(r, c, d + 1)
  }

  /** Weighted positive signal over the first `n` listed cells. */
  function WindowSum(hm: seq<int>, ns: seq<int>, n: nat, w: Weight): int
    requires |hm| == CELLS && n <= |ns| && forall k :: 0 <= k < |ns| ==> IsCell(ns[k])
  {
    if n == 0 then 0
    else WindowSum(hm, ns, n - 1, w) + if hm[ns[n - 1]] > 0 then Factor(w, ns[n - 1]) * hm[ns[n - 1]] else 0
  }

  function LocalContact(hm: seq<int>, pk: Peak, area: int, sig: int): Contact
    requires |hm| == CELLS
  {
    var ns := Window(pk.r, pk.c, 0);
    var total := WindowSum(hm, ns, |ns|, ByOne);
    var t := if total == 0 then 1 else total;
    BLANK.(id := pk.id, x := Centroid(WindowSum(hm, ns, |ns|, ByCol), t),
      y := Centroid(WindowSum(hm, ns, |ns|, ByRow), t),
           area := area, signalSum := sig, state := StateDown)
  }

  // ----- bounds -----

  /** A mean of positions between `lo` and `hi` lands half a cell in between them. */
  lemma CentroidBetween(weighted: int, total: int, lo: int, hi: int)
    requires total > 0 && lo >= 0 && lo * 128 * total <= weighted <= hi * 128 * total
    ensures lo as real + 0.5 <= Centroid(weighted, total) <= hi as real + 0.5
  {
    assert (lo * 256) * total <= weighted * 2 <= (hi * 256) * total;
    TruncDivBetween(weighted * 2, total, lo * 256, hi * 256);
  }

  lemma Scaled(a: int, b: int, sig: int)
    requires a <= b && sig > 0
    ensures a * 128 * sig <= b * 128 * sig
  {
  }

  ghost predicate CoresPositive(ps: seq<Pixel>) {
    forall k :: 0 <= k < |ps| && ps[k].core ==> ps[k].sig > 0 && IsCell(ps[k].cell)
  }

  ghost function Along(a: Axis): Weight { if a == Across then ByCol else ByRow }

  /** Core sums lie between the extreme coordinates times the core signal. */
  lemma {:induction false} CoreSumBetween(ps: seq<Pixel>, a: Axis, lo: int, hi: int)
    requires CoresPositive(ps)
    requires forall k :: 0 <= k < |ps| && ps[k].core ==> lo <= Coord(a, ps[k].cell) <= hi
    ensures CoreSum(ps, ByOne) >= 0
    ensures lo * 128 * CoreSum(ps, ByOne) <= CoreSum(ps, Along(a)) <= hi * 128 * CoreSum(ps, ByOne)
  {
    if |ps| > 0 {
      var n := |ps| - 1;
      CoreSumBetween(ps[..n], a, lo, hi);
      var p := ps[n];
      if p.core {
        var c := Coord(a, p.cell);
        assert Factor(Along(a), p.cell) == c * 128;
        Scaled(lo, c, p.sig);
        Scaled(c, hi, p.sig);
        BoundsAdd(lo, hi, CoreSum(ps[..n], ByOne), CoreSum(ps[..n], Along(a)), p.sig, c * 128 * p.sig);
      }
    }
  }

  lemma BoundsAdd(lo: int, hi: int, s0: int, w0: int, s1: int, w1: int)
    requires lo * 128 * s0 <= w0 <= hi * 128 * s0 && lo * 128 * s1 <= w1 <= hi * 128 * s1
    ensures lo * 128 * (s0 + s1) <= w0 + w1 <= hi * 128 * (s0 + s1)
  {
    assert lo * 128 * (s0 + s1) == lo * 128 * s0 + lo * 128 * s1;
    assert hi * 128 * (s0 + s1) == hi * 128 * s0 + hi * 128 * s1;
  }

  /** No 32-bit accumulator overflows, at any pixel, while the zone's signal stays within 284359; the
      bound is the greatest for which the sums of a zone in the last column fit. */
  lemma SumsFit(ps: seq<Pixel>, n: nat, a: Axis)
    requires CoresPositive(ps) && n <= |ps| && CoreSum(ps, ByOne) <= 284359
    ensures 0 <= CoreSum(ps[..n], ByOne) <= CoreSum(ps, ByOne)
    ensures 0 <= CoreSum(ps[..n], Along(a)) <= INT_MAX
    ensures COL_MAX * 128 * 284359 <= INT_MAX < COL_MAX * 128 * 284360
  {
    PrefixSumSmaller(ps, n);
    CoreSumBetween(ps[..n], a, 0, COL_MAX);
    assert COL_MAX * 128 * CoreSum(ps[..n], ByOne) <= COL_MAX * 128 * 284359;
  }

  lemma {:induction false} PrefixSumSmaller(ps: seq<Pixel>, n: nat)
    requires CoresPositive(ps) && n <= |ps|
    ensures 0 <= CoreSum(ps[..n], ByOne) <= CoreSum(ps, ByOne)
  {
    if n == |ps| {
      assert ps[..n] == ps;
      CoreSumBetween(ps, Across, 0, COL_MAX);
    } else {
      var k := |ps| - 1;
      PrefixSumSmaller(ps[..k], n);
      assert ps[..k][..n] == ps[..n];
    }
  }

  lemma Pick(s: set<int>) returns (j: int)
    requires s != {}
    ensures j in s
  {
    assert (forall x: int :: x !in s) ==> s == {};
    j :| j in s;
  }

  /** The weighted sums of a zone fit 32 bits. */
  ghost predicate SumsHold(ps: seq<Pixel>) { CoreSum(ps, ByCol) <= INT_MAX && CoreSum(ps, ByRow) <= INT_MAX }

  /** The weighted sums of a flooded zone, before any wrap, against its exact bounding box. */
  lemma SumsInBox(hm: seq<int>, u: Unit, e: EdgeInfo, ps: seq<Pixel>, core: set<int>, marked: set<int>)
    requires OnCells(hm) && Counted(hm, ps, core, marked, u, e) && core <= marked
    requires core != {} && forall j :: j in core ==> IsCell(j) && hm[j] > 0
    ensures CoresPositive(ps) && u.signalSum == u.weightTotal > 0 && u.area > 0
    ensures 0 <= e.minCol && e.maxCol <= COL_MAX && 0 <= e.minRow && e.maxRow <= ROW_MAX
    ensures e.minCol * 128 * u.weightTotal <= CoreSum(ps, ByCol) <= e.maxCol * 128 * u.weightTotal
    ensures e.minRow * 128 * u.weightTotal <= CoreSum(ps, ByRow) <= e.maxRow * 128 * u.weightTotal
  {
    ListedCore(hm, ps, core, marked);
    var j := Pick(core);
    assert j in CoreCells(ps);
    CorePixelsAreCore(hm, ps, core, marked);
    CoreSumPositive(hm, ps, core, marked);
    var cells := CoreCells(ps);
    forall k | 0 <= k < |cells| ensures IsCell(cells[k]) {
      var c := cells[k];
      assert c in cells;
    }
    BoundsAreExact(cells, Across);
    BoundsAreExact(cells, Down);
    CoreWithin(ps, Across, e.minCol, e.maxCol);
    CoreWithin(ps, Down, e.minRow, e.maxRow);
    CoreSumBetween(ps, Across, e.minCol, e.maxCol);
    CoreSumBetween(ps, Down, e.minRow, e.maxRow);
    BoundsNonNegative(cells, Across);
    BoundsNonNegative(cells, Down);
  }

  /** While its weighted sums fit 32 bits the centroid of a single-peak zone lies half a cell inside the zone's
      bounding box. */
  lemma CentroidInBox(hm: seq<int>, u: Unit, e: EdgeInfo, ps: seq<Pixel>, core: set<int>, marked: set<int>, id: int)
    requires OnCells(hm) && Counted(hm, ps, core, marked, u, e) && core <= marked
    requires core != {} && forall j :: j in core ==> IsCell(j) && hm[j] > 0
    requires SumsHold(ps)
    ensures u.signalSum == u.weightTotal > 0 && u.area > 0
    ensures e.minCol as real + 0.5 <= SingleContact(u, id).x <= e.maxCol as real + 0.5
    ensures e.minRow as real + 0.5 <= SingleContact(u, id).y <= e.maxRow as real + 0.5
    ensures 0 <= e.minCol && e.maxCol <= COL_MAX && 0 <= e.minRow && e.maxRow <= ROW_MAX
  {
    SumsInBox(hm, u, e, ps, core, marked);
    MulLe(0, e.minCol * 128, u.weightTotal);
    MulLe(0, e.minRow * 128, u.weightTotal);
    CentroidBetween(u.weightedColSum, u.weightTotal, e.minCol, e.maxCol);
    CentroidBetween(u.weightedRowSum, u.weightTotal, e.minRow, e.maxRow);
  }

  // ----- beyond 32 bits -----

  /** Greatest signal of a zone for which the weighted sums are sure to fit. */
  const FITTING: int := 284359

  /** A zone of at most this signal has sums that fit. */
  lemma FittingSumsHold(ps: seq<Pixel>)
    requires CoresPositive(ps) && CoreSum(ps, ByOne) <= FITTING
    ensures SumsHold(ps)
  {
    assert ps[..|ps|] == ps;
    SumsFit(ps, |ps|, Across);
    SumsFit(ps, |ps|, Down);
  }

  /** A wrapped dividend gives a smaller quotient. */
  lemma QuotientDrops(a: int, b: int, total: int)
    requires 0 < total <= 0x1_0000_0000 && b <= a - 0x2_0000_0000
    ensures TruncDiv(b, total) < TruncDiv(a, total)
  {
    TruncDivMeans(a, total);
    TruncDivMeans(b, total);
    if TruncDiv(a, total) <= TruncDiv(b, total) { MulLe(TruncDiv(a, total), TruncDiv(b, total), total); }
  }

  /** The centroid is the true mean exactly when the weighted sum fits 32 bits. */
  lemma CentroidTrueIff(weighted: int, total: int)
    requires 0 < total <= CELLS * SHORT_MAX && 0 <= weighted
    ensures Centroid(ToWord(weighted), total) == Centroid(weighted, total) <==> weighted <= INT_MAX
  {
    if weighted > INT_MAX {
      WordLoses(weighted);
      QuotientDrops(weighted * 2, ToWord(weighted) * 2, total);
    }
  }

  /** Signal of a zone of a 16-bit heat map. */
  lemma {:induction false} SignalBound(hm: seq<int>, core: set<int>, n: nat)
    requires OnCells(hm) && n <= CELLS && forall i :: 0 <= i < CELLS ==> IsShort(hm[i])
    ensures SumOver(hm, core, ByOne, n) <= n * SHORT_MAX
  {
    if n > 0 { SignalBound(hm, core, n - 1); }
  }

  /** On a 16-bit heat map the contact of a single-peak zone is the weighted mean of its core exactly when both
      weighted sums fit 32 bits. */
  lemma ContactTrueIff(hm: seq<int>, u: Unit, e: EdgeInfo, ps: seq<Pixel>, core: set<int>, marked: set<int>, id: int)
    requires OnCells(hm) && Counted(hm, ps, core, marked, u, e) && core <= marked
    requires core != {} && forall j :: j in core ==> IsCell(j) && hm[j] > 0
    requires forall i :: 0 <= i < CELLS ==> IsShort(hm[i])
    ensures u.weightTotal == CoreSum(ps, ByOne) > 0
    ensures var c, total := SingleContact(u, id), CoreSum(ps, ByOne);
      c.x == Centroid(CoreSum(ps, ByCol), total) && c.y == Centroid(CoreSum(ps, ByRow), total) <==> SumsHold(ps)
  {
    SumsInBox(hm, u, e, ps, core, marked);
    SumsOverCore(hm, ps, core, marked, ByOne);
    SignalBound(hm, core, CELLS);
    MulLe(0, e.minCol * 128, u.weightTotal);
    MulLe(0, e.minRow * 128, u.weightTotal);
    CentroidTrueIff(CoreSum(ps, ByCol), u.weightTotal);
    CentroidTrueIff(CoreSum(ps, ByRow), u.weightTotal);
  }

  lemma SmallQuotient(q: int, total: int, a: int)
    requires total > FITTING && q * total <= a <= 0x1_0000_0000
    ensures q <= 15104
  {
    if q > 15104 { MulLe(15105, q, total); }
  }

  /** A wrapped sum of a zone too strong to fit leads at most sixty cells astray. */
  lemma CentroidReach(weighted: int, total: int)
    requires total > FITTING
    ensures -60.0 <= Centroid(ToWord(weighted), total) <= 60.0
  {
    var a := ToWord(weighted) * 2;
    var q := TruncDiv(a, total);
    TruncDivMeans(a, total);
    if a >= 0 {
      SmallQuotient(q, total, a);
    } else {
      assert -q * total == -(q * total);
      SmallQuotient(-q, total, -a);
    }
  }

  lemma {:induction false} BoundsNonNegative(cells: seq<int>, a: Axis)
    requires forall k :: 0 <= k < |cells| ==> IsCell(cells[k])
    ensures Low(cells, a) >= 0
  {
    if |cells| > 0 { BoundsNonNegative(cells[..|cells| - 1], a); }
  }

  /** Every core pixel is a listed core cell of positive signal. */
  lemma {:induction false} CorePixelsAreCore(hm: seq<int>, ps: seq<Pixel>, core: set<int>, marked: set<int>)
    requires OnCells(hm) && Listed(hm, ps, core, marked)
    requires forall j :: j in core ==> IsCell(j) && hm[j] > 0
    ensures CoresPositive(ps)
  {
    if |ps| > 0 {
      var p := ps[|ps| - 1];
      CorePixelsAreCore(hm, ps[..|ps| - 1], core - {p.cell}, marked - {p.cell});
    }
  }

  lemma {:induction false} CoreSumPositive(hm: seq<int>, ps: seq<Pixel>, core: set<int>, marked: set<int>)
    requires OnCells(hm) && Listed(hm, ps, core, marked)
    requires forall j :: j in core ==> IsCell(j) && hm[j] > 0
    ensures CoreSum(ps, ByOne) >= 0 && (core != {} ==> CoreSum(ps, ByOne) > 0)
  {
    if |ps| > 0 {
      var p := ps[|ps| - 1];
      CoreSumPositive(hm, ps[..|ps| - 1], core - {p.cell}, marked - {p.cell});
      assert p.core ==> Factor(ByOne, p.cell) * p.sig == p.sig > 0;
      if core - {p.cell} == {} && core != {} { assert p.cell in core; }
    }
  }

  /** What bounds the core cells bounds the core pixels. */
  lemma {:induction false} CoreWithin(ps: seq<Pixel>, a: Axis, lo: int, hi: int)
    requires forall k :: 0 <= k < |CoreCells(ps)| ==> lo <= Coord(a, CoreCells(ps)[k]) <= hi
    ensures forall k :: 0 <= k < |ps| && ps[k].core ==> lo <= Coord(a, ps[k].cell) <= hi
  {
    if |ps| > 0 {
      var n := |ps| - 1;
      var before, now := CoreCells(ps[..n]), CoreCells(ps);
      forall k | 0 <= k < |before| ensures lo <= Coord(a, before[k]) <= hi {
        assert now[k] == before[k];
      }
      CoreWithin(ps[..n], a, lo, hi);
      if ps[n].core { assert now[|now| - 1] == ps[n].cell; }
    }
  }

  // ----- the window of a peak in a shared zone -----

  lemma {:induction false} WindowSumBetween(hm: seq<int>, ns: seq<int>, n: nat, a: Axis, lo: int, hi: int)
    requires |hm| == CELLS && n <= |ns| && forall k :: 0 <= k < |ns| ==> IsCell(ns[k]) && lo <= Coord(a, ns[k]) <= hi
    ensures WindowSum(hm, ns, n, ByOne) >= 0
    ensures lo * 128 * WindowSum(hm, ns, n, ByOne) <= WindowSum(hm, ns, n, Along(a)) <= hi * 128 * WindowSum(hm, ns, n,
            ByOne)
  {
    if n > 0 {
      WindowSumBetween(hm, ns, n - 1, a, lo, hi);
      var sig := hm[ns[n - 1]];
      if sig > 0 {
        var c := Coord(a, ns[n - 1]);
        assert Factor(Along(a), ns[n - 1]) == c * 128;
        Scaled(lo, c, sig);
        Scaled(c, hi, sig);
        BoundsAdd(lo, hi, WindowSum(hm, ns, n - 1, ByOne), WindowSum(hm, ns, n - 1, Along(a)), sig, c * 128 * sig);
      }
    }
  }

  lemma {:induction false} WindowSumHas(hm: seq<int>, ns: seq<int>, n: nat, k: nat)
    requires |hm| == CELLS && k < n <= |ns| && forall i :: 0 <= i < |ns| ==> IsCell(ns[i])
    requires IsCell(ns[k]) && hm[ns[k]] > 0
    ensures WindowSum(hm, ns, n, ByOne) > 0
  {
    if k < n - 1 {
      WindowSumHas(hm, ns, n - 1, k);
    } else {
      WindowSumNonNegative(hm, ns, n - 1);
    }
  }

  lemma {:induction false} WindowSumNonNegative(hm: seq<int>, ns: seq<int>, n: nat)
    requires |hm| == CELLS && n <= |ns| && forall i :: 0 <= i < |ns| ==> IsCell(ns[i])
    ensures WindowSum(hm, ns, n, ByOne) >= 0
  {
    if n > 0 { WindowSumNonNegative(hm, ns, n - 1); }
  }

  lemma CentreInWindow(r: int, c: int)
    requires OnGrid(r, c)
    ensures Cell(r, c) in Window(r, c, 0)
  {
    assert Window(r, c, 4) == [Cell(r, c)] + Window(r, c, 5);
    WindowShrinks(r, c, 4, Cell(r, c));
  }

  lemma WindowGrows(r: int, c: int, d: nat, x: int)
    requires d < 9 && x in Window(r, c, d + 1)
    ensures x in Window(r, c, d)
  {
  }

  lemma {:induction false} WindowShrinks(r: int, c: int, d: nat, x: int)
    requires d <= 9 && x in Window(r, c, d)
    ensures x in Window(r, c, 0)
  {
    if d > 0 {
      WindowGrows(r, c, d - 1, x);
      WindowShrinks(r, c, d - 1, x);
    }
  }

  lemma WindowPositive(hm: seq<int>, r: int, c: int)
    requires |hm| == CELLS && OnGrid(r, c) && hm[Cell(r, c)] > 0
    ensures WindowSum(hm, Window(r, c, 0), |Window(r, c, 0)|, ByOne) > 0
  {
    var ns, x := Window(r, c, 0), Cell(r, c);
    CentreInWindow(r, c);
    var k :| 0 <= k < |ns| && ns[k] == x;
    WindowSumHas(hm, ns, |ns|, k);
  }

  lemma WindowCentroid(hm: seq<int>, r: int, c: int, a: Axis, at: int)
    requires |hm| == CELLS && OnGrid(r, c) && hm[Cell(r, c)] > 0
    requires at == if a == Across then c else r
    ensures var ns := Window(r, c, 0);
      && WindowSum(hm, ns, |ns|, ByOne) > 0
      && Max(0, at - 1) as real + 0.5
           <= Centroid(WindowSum(hm, ns, |ns|, Along(a)), WindowSum(hm, ns, |ns|, ByOne))
           <= Min(Last(a), at + 1) as real + 0.5
  {
    var ns := Window(r, c, 0);
    var lo, hi := Max(0, at - 1), Min(Last(a), at + 1);
    WindowPositive(hm, r, c);
    forall i | 0 <= i < |ns| ensures lo <= Coord(a, ns[i]) <= hi {
      CellOfCoordinates(ns[i]);
    }
    WindowSumBetween(hm, ns, |ns|, a, lo, hi);
    CentroidBetween(WindowSum(hm, ns, |ns|, Along(a)), WindowSum(hm, ns, |ns|, ByOne), lo, hi);
  }

  /** Last line of the grid across an axis. */
  function Last(a: Axis): int { if a == Across then COL_MAX else ROW_MAX }

  /** In a shared zone every peak's centroid stays within one cell of the centre of its own cell, and between the
      centres of the first and the last line of the grid. */
  lemma LocalCentroidNearPeak(hm: seq<int>, pk: Peak, area: int, sig: int)
    requires |hm| == CELLS && OnGrid(pk.r, pk.c) && hm[PeakCell(pk)] > 0
    ensures var o := LocalContact(hm, pk, area, sig);
      && Max(0, pk.c - 1) as real + 0.5 <= o.x <= Min(COL_MAX, pk.c + 1) as real + 0.5
      && Max(0, pk.r - 1) as real + 0.5 <= o.y <= Min(ROW_MAX, pk.r + 1) as real + 0.5
  {
    WindowCentroid(hm, pk.r, pk.c, Across, pk.c);
    WindowCentroid(hm, pk.r, pk.c, Down, pk.r);
  }

  // ----- the cut to the strongest touches -----

  /** Sort key: the strongest contact comes first. */
  function Weakness(c: Contact): int { -c.signalSum }

  /** What the library sort promises; the order of equals is open. */
  ghost predicate IsSorted(contacts: seq<Contact>, s: seq<Contact>) {
    multiset(s) == multiset(contacts) && Ascending(s, Weakness)
  }

  function Renumbered(s: seq<Contact>): (t: seq<Contact>)
    ensures |t| == |s| && forall i :: 0 <= i < |t| ==> t[i] == s[i].(id := i)
  {
    seq(|s|, i requires 0 <= i < |s| => s[i].(id := i))
  }

  /** The contacts of the frame after the cut. */
  ghost predicate IsCut(contacts: seq<Contact>, maxTouches: int, out: seq<Contact>) {
    if maxTouches > 0 && |contacts| > maxTouches then
      exists s :: IsSorted(contacts, s) && |s| >= maxTouches && out == Renumbered(s[..maxTouches])
    else out == contacts
  }

  /** `all` falls into `kept` and `dropped`, and nothing dropped is stronger than anything kept. */
  ghost predicate SplitsByStrength(all: seq<Contact>, kept: seq<Contact>, dropped: seq<Contact>) {
    && multiset(all) == multiset(kept) + multiset(dropped)
    && forall a, b :: 0 <= a < |kept| && 0 <= b < |dropped| ==> dropped[b].signalSum <= kept[a].signalSum
  }

  lemma SortedSplits(all: seq<Contact>, s: seq<Contact>, n: nat)
    requires IsSorted(all, s) && n <= |s|
    ensures SplitsByStrength(all, s[..n], s[n..])
  {
    assert s == s[..n] + s[n..];
    forall a, b | 0 <= a < n && 0 <= b < |s[n..]| ensures s[n..][b].signalSum <= s[..n][a].signalSum {
      assert Weakness(s[a]) <= Weakness(s[n + b]);
    }
  }

  /** The cut leaves the least of the two counts, and no dropped contact is stronger than a kept one. */
  lemma CutKeepsStrongest(contacts: seq<Contact>, maxTouches: int, out: seq<Contact>)
    requires IsCut(contacts, maxTouches, out) && maxTouches > 0
    ensures |out| == Min(|contacts|, maxTouches)
    ensures exists kept: seq<Contact>, dropped: seq<Contact> ::
      SplitsByStrength(contacts, kept, dropped) && |kept| == |out| && (out == kept || out == Renumbered(kept))
  {
    if |contacts| > maxTouches {
      var s :| IsSorted(contacts, s) && |s| >= maxTouches && out == Renumbered(s[..maxTouches]);
      SortedSplits(contacts, s, maxTouches);
    } else {
      var none: seq<Contact> := [];
      assert SplitsByStrength(contacts, out, none);
    }
  }

  method Cut(contacts: seq<Contact>, maxTouches: int) returns (out: seq<Contact>)
    ensures IsCut(contacts, maxTouches, out)
  {
    out := contacts;
    if maxTouches > 0 && |contacts| > maxTouches {
      var s := Sort(contacts, Weakness);
      assert |multiset(s)| == |multiset(contacts)|;
      out := Renumbered(s[..maxTouches]);
    }
  }
}
