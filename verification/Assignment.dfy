/** TouchTracker::SolveAssignment, the Hungarian method with potentials (Jonker-Volgenant):
    arrays are 1-based as in the source, column 0 is the artificial root of each search. */
module Assignment {
  import opened Matching

  /** An eighth of the largest single-precision number. */
  const K_INF: real := 42535293329816107476463022935564615680.0

  /** Costs below this bound keep every reduced cost below `K_INF`. */
  const COST_LIMIT: real := K_INF / 4.0

  ghost predicate Bounded(cost: Matrix) {
    forall r, c :: 0 <= r < |cost| && 0 <= c < |cost[r]| ==> -COST_LIMIT < cost[r][c] < COST_LIMIT
  }

  ghost predicate Wide(mx: Matrix, n: nat, m: nat) {
    && 1 <= n <= m && |mx| == n
    && (forall r :: 0 <= r < n ==> |mx[r]| == m)
    && Bounded(mx)
  }

  function At(mx: Matrix, i: int, j: int): real
    requires 1 <= i <= |mx| && 1 <= j <= |mx[i - 1]|
  {
    mx[i - 1][j - 1]
  }

  /** Potentials after the first `k` rows are matched by `p` (`p[j]` is the row in column `j`, or 0). */
  ghost predicate Duals(mx: Matrix, n: nat, m: nat, k: nat, u: seq<real>, v: seq<real>, p: seq<int>) {
    && Wide(mx, n, m) && k <= n
    && |u| == n + 1 && |v| == m + 1 && |p| == m + 1
    && (forall j :: 1 <= j <= m ==> 0 <= p[j] <= k)
    && (forall i, j :: 1 <= i <= k && 1 <= j <= m ==> u[i] + v[j] <= At(mx, i, j))
    && (forall j :: 1 <= j <= m && p[j] != 0 ==> u[p[j]] + v[j] == At(mx, p[j], j))
    && (forall j :: 1 <= j <= m ==> v[j] <= 0.0)
    && (forall j :: 1 <= j <= m && p[j] == 0 ==> v[j] == 0.0)
    && (forall i :: k < i <= n ==> u[i] == 0.0)
  }

  /** Rows 1..k sit in distinct columns other than `hole`: `q[r]` is the column of row `r`. */
  ghost predicate Placed(p: seq<int>, q: seq<int>, m: nat, k: nat, hole: int) {
    && |p| == m + 1 && |q| > k && 0 <= hole <= m
    && (forall r :: 1 <= r <= k ==> 0 <= q[r] <= m && q[r] != hole && p[q[r]] == r)
    && (forall j :: 0 <= j <= m && j != hole ==> 0 <= p[j] <= k)
    && (forall j :: 0 <= j <= m && j != hole && p[j] != 0 ==> q[p[j]] == j)
  }

  ghost predicate Sized(mx: Matrix, n: nat, m: nat, i: nat, u: seq<real>, v: seq<real>, p: seq<int>) {
    && Wide(mx, n, m) && 1 <= i <= n
    && |u| == n + 1 && |v| == m + 1 && |p| == m + 1
    && p[0] == i && (forall j :: 1 <= j <= m ==> 0 <= p[j] < i)
  }

  /** The columns used so far by the search for row `i`, rooted at the artificial column 0;
      `j0` is the column reached next, and `way` leads from every column to a used one. */
  ghost predicate Grown(m: nat, p: seq<int>, way: seq<int>, used: seq<bool>, done: set<int>, j0: int) {
    && |p| == m + 1 && |way| == m + 1 && |used| == m + 1
    && (forall j :: 0 <= j <= m ==> (used[j] <==> j in done))
    && (forall j :: j in done ==> 0 <= j <= m && p[j] != 0)
    && 0 <= j0 <= m && j0 !in done
    && (done == {} <==> j0 == 0) && (done != {} ==> 0 in done)
    && (done != {} ==> forall j :: 1 <= j <= m ==> way[j] in done)
  }

  /** Reduced cost of column `j` seen from the row sitting in column `c`. */
  ghost function Reduced(mx: Matrix, n: nat, m: nat, i: nat, u: seq<real>, v: seq<real>, p: seq<int>, c: int,
                         j: int): real
    requires Sized(mx, n, m, i, u, v, p)
    requires 0 <= c <= m && p[c] != 0 && 1 <= j <= m
  {
    At(mx, p[c], j) - u[p[c]] - v[j]
  }

  /** Potentials during the search for row `i`: rows below `i` keep all they had, and row `i`
      is feasible once the root has been scanned. */
  ghost predicate SearchDuals(mx: Matrix, n: nat, m: nat, i: nat, u: seq<real>, v: seq<real>, p: seq<int>, rooted: bool)
    requires Sized(mx, n, m, i, u, v, p)
  {
    && (forall r, j :: 1 <= r < i && 1 <= j <= m ==> u[r] + v[j] <= At(mx, r, j))
    && (rooted ==> forall j :: 1 <= j <= m ==> u[i] + v[j] <= At(mx, i, j))
    && (!rooted ==> u[i] == 0.0) && u[i] > -COST_LIMIT
    && (forall j :: 1 <= j <= m && p[j] != 0 ==> u[p[j]] + v[j] == At(mx, p[j], j))
    && (forall j :: 1 <= j <= m ==> v[j] <= 0.0)
    && (forall j :: 1 <= j <= m && p[j] == 0 ==> v[j] == 0.0)
    && (forall r :: i < r <= n ==> u[r] == 0.0)
  }

  /** Tree edges are tight and lead to columns used earlier. */
  ghost predicate Edges(mx: Matrix, n: nat, m: nat, i: nat, u: seq<real>, v: seq<real>, p: seq<int>, way: seq<int>,
                        used: seq<bool>, done: set<int>, rank: seq<int>, j0: int)
    requires Sized(mx, n, m, i, u, v, p) && Grown(m, p, way, used, done, j0)
  {
    && |rank| == m + 1
    && (forall j :: 1 <= j <= m && (j in done || j == j0) ==> Reduced(mx, n, m, i, u, v, p, way[j], j) == 0.0)
    && (forall j :: 1 <= j <= m && j in done ==> rank[way[j]] < rank[j])
    && (forall j :: j in done ==> 0 <= rank[j] < |done|)
  }

  /** `minv[j]` is the least reduced cost from the tree to the unused column `j`, and `way[j]` attains it. */
  ghost predicate Fringe(mx: Matrix, n: nat, m: nat, i: nat, u: seq<real>, v: seq<real>, p: seq<int>, way: seq<int>,
                         used: seq<bool>, minv: seq<real>, done: set<int>, j0: int)
    requires Sized(mx, n, m, i, u, v, p) && Grown(m, p, way, used, done, j0)
  {
    && |minv| == m + 1
    && (done == {} ==> forall j :: 1 <= j <= m ==> minv[j] == K_INF)
    && (done != {} ==> forall j :: 1 <= j <= m && j !in done ==>
          minv[j] >= 0.0 && minv[j] == Reduced(mx, n, m, i, u, v, p, way[j], j))
    && (forall j, c :: 1 <= j <= m && j !in done && c in done ==>
          minv[j] <= Reduced(mx, n, m, i, u, v, p, c, j))
  }

  // ----- the two inner loops -----

  /** The relaxation through column `j0`: old labels `way`, `minv`, new ones `way1`, `minv1`, nearest column `j1`. */
  ghost predicate Relaxed(mx: Matrix, n: nat, m: nat, i: nat, u: seq<real>, v: seq<real>, p: seq<int>, used: seq<bool>,
                          j0: int, way: seq<int>, minv: seq<real>, way1: seq<int>, minv1: seq<real>, delta: real,
                          j1: int)
    requires Sized(mx, n, m, i, u, v, p) && |used| == m + 1 && 0 <= j0 <= m && p[j0] != 0
  {
    && |way| == m + 1 && |minv| == m + 1 && |way1| == m + 1 && |minv1| == m + 1
    && (forall j :: 0 <= j <= m && used[j] ==> minv1[j] == minv[j] && way1[j] == way[j])
    && (forall j :: 1 <= j <= m && !used[j] ==>
          var cur := Reduced(mx, n, m, i, u, v, p, j0, j);
          if cur < minv[j] then minv1[j] == cur && way1[j] == j0
          else minv1[j] == minv[j] && way1[j] == way[j])
    && 1 <= j1 <= m && !used[j1] && delta == minv1[j1]
    && (forall j :: 1 <= j <= m && !used[j] ==> delta <= minv1[j])
  }

  /** First inner loop: relax every unused column through column j0 and pick the nearest one. */
  method Relax(mx: Matrix, n: nat, m: nat, i: nat, u: array<real>, v: array<real>, p: array<int>, way: array<int>,
               minv: array<real>, used: array<bool>, j0: int)
    returns (delta: real, j1: int)
    requires Sized(mx, n, m, i, u[..], v[..], p[..])
    requires way.Length == m + 1 && minv.Length == m + 1 && used.Length == m + 1
    requires minv != u && minv != v && way != p
    requires 0 <= j0 <= m && p[..][j0] != 0 && used[0]
    requires forall j :: 1 <= j <= m && !used[j] ==> Reduced(mx, n, m, i, u[..], v[..], p[..], j0, j) < K_INF
    requires exists j :: 1 <= j <= m && !used[j]
    modifies way, minv
    ensures Relaxed(mx, n, m, i, u[..], v[..], p[..], used[..], j0, old(way[..]), old(minv[..]), way[..], minv[..],
            delta, j1)
  {
    ghost var U, V, P, minv0, way0 := u[..], v[..], p[..], minv[..], way[..];
    var i0 := p[j0];
    delta, j1 := K_INF, 0;
    for j := 1 to m + 1
      invariant forall c :: 0 <= c <= m && (used[c] || c >= j || c == 0) ==>
              minv[c] == minv0[c] && way[c] == way0[c]
      invariant forall c :: 1 <= c < j && !used[c] ==>
              var cur := Reduced(mx, n, m, i, U, V, P, j0, c);
              if cur < minv0[c] then minv[c] == cur && way[c] == j0 else minv[c] == minv0[c] && way[c] == way0[c]
      invariant 0 <= j1 < j
      invariant j1 == 0 ==> delta == K_INF && forall c :: 1 <= c < j ==> used[c]
      invariant j1 != 0 ==> !used[j1] && delta == minv[j1]
      invariant forall c :: 1 <= c < j && !used[c] ==> delta <= minv[c]
    {
      if used[j] { continue; }
      var cur := At(mx, i0, j) - u[i0] - v[j];
      assert cur == Reduced(mx, n, m, i, U, V, P, j0, j);
      if cur < minv[j] { minv[j] := cur; way[j] := j0; }
      if minv[j] < delta { delta := minv[j]; j1 := j; }
    }
  }

  /** The shift of the tree's potentials by `delta`. */
  ghost predicate Shifted(n: nat, m: nat, p: seq<int>, used: seq<bool>, delta: real, u: seq<real>, v: seq<real>,
                          minv: seq<real>, u2: seq<real>, v2: seq<real>, minv2: seq<real>)
  {
    && |p| == m + 1 && |used| == m + 1 && |u| == n + 1 && |u2| == n + 1
    && |v| == m + 1 && |v2| == m + 1 && |minv| == m + 1 && |minv2| == m + 1
    && (forall j :: 0 <= j <= m && used[j] ==> 0 <= p[j] <= n)
    && (forall j :: 0 <= j <= m ==> v2[j] == if used[j] then v[j] - delta else v[j])
    && (forall j :: 0 <= j <= m ==> minv2[j] == if used[j] then minv[j] else minv[j] - delta)
    && (forall j :: 0 <= j <= m && used[j] ==> u2[p[j]] == u[p[j]] + delta)
    && (forall r :: 0 <= r <= n && (forall j :: 0 <= j <= m && used[j] ==> p[j] != r) ==> u2[r] == u[r])
  }

  /** Second inner loop: shift the potentials of the tree by delta. */
  method Shift(n: nat, m: nat, u: array<real>, v: array<real>, p: array<int>, minv: array<real>, used: array<bool>,
               delta: real, ghost q: seq<int>)
    requires u.Length == n + 1 && v.Length == m + 1 && p.Length == m + 1
    requires minv.Length == m + 1 && used.Length == m + 1
    requires u != v && minv != u && minv != v
    requires forall j :: 0 <= j <= m && used[j] ==> 0 < p[..][j] <= n
    requires Inverts(p[..], q)
    modifies u, v, minv
    ensures Shifted(n, m, p[..], used[..], delta, old(u[..]), old(v[..]), old(minv[..]), u[..], v[..], minv[..])
  {
    for j := 0 to m + 1
      invariant forall c :: 0 <= c <= m ==> v[c] == if c < j && used[c] then old(v[c]) - delta else old(v[c])
      invariant forall c :: 0 <= c <= m ==> minv[c] == if c < j && !used[c] then old(minv[c]) - delta else old(minv[c])
      invariant forall c :: 0 <= c <= m && used[c] ==> u[p[c]] == if c < j then old(u[p[c]]) + delta else old(u[p[c]])
      invariant forall r :: 0 <= r <= n && (forall c :: 0 <= c < j && used[c] ==> p[c] != r) ==> u[r] == old(u[r])
    {
      if used[j] {
        forall c | 0 <= c <= m && used[c] && c != j ensures p[c] != p[j] {
          assert q[p[..][c]] == c && q[p[..][j]] == j;
        }
        u[p[j]] := u[p[j]] + delta;
        v[j] := v[j] - delta;
      } else {
        minv[j] := minv[j] - delta;
      }
    }
  }

  // ----- one pass of the search -----

  /** `q` inverts `p` on the occupied columns. */
  ghost predicate Inverts(p: seq<int>, q: seq<int>) {
    forall j :: 0 <= j < |p| && p[j] != 0 ==> 0 <= p[j] < |q| && q[p[j]] == j
  }

  /** Fewer rows than columns are placed, so some column is free. */
  lemma FreeColumn(p: seq<int>, q: seq<int>, m: nat, i: nat) returns (f: int)
    requires |p| == m + 1 && 1 <= i <= m && Inverts(p, q)
    requires forall j :: 1 <= j <= m ==> 0 <= p[j] < i
    ensures 1 <= f <= m && p[f] == 0
  {
    if forall j :: 1 <= j <= m ==> p[j] != 0 {
      var a := seq(m, c requires 0 <= c < m => p[c + 1] - 1);
      forall r, s | 0 <= r < s < m ensures a[r] != a[s] {
        assert p[r + 1] != 0 && p[s + 1] != 0;
      }
      SizeAtMostRows(a);
      SizeAtMostCols(a, i - 1);
      assert false;
    }
    f :| 1 <= f <= m && p[f] == 0;
  }

  /** Every reduced cost the search can meet stays below `K_INF`. */
  lemma ReducedBelowInf(mx: Matrix, n: nat, m: nat, i: nat, u: seq<real>, v: seq<real>, p: seq<int>, q: seq<int>,
                        rooted: bool, c: int, j: int)
    requires Sized(mx, n, m, i, u, v, p) && SearchDuals(mx, n, m, i, u, v, p, rooted) && Inverts(p, q)
    requires 0 <= c <= m && p[c] != 0 && 1 <= j <= m
    ensures Reduced(mx, n, m, i, u, v, p, c, j) < K_INF
  {
    var f := FreeColumn(p, q, m, i);
    assert v[f] == 0.0;
    if p[j] != 0 {
      assert u[p[j]] + v[f] <= At(mx, p[j], f);
      assert u[p[j]] + v[j] == At(mx, p[j], j);
    }
    if c != 0 {
      assert u[p[c]] + v[c] == At(mx, p[c], c);
    }
  }

  /** Everything the search keeps between two passes. */
  ghost predicate Searching(mx: Matrix, n: nat, m: nat, i: nat, u: seq<real>, v: seq<real>, p: seq<int>, way: seq<int>,
                            used: seq<bool>, minv: seq<real>, done: set<int>, rank: seq<int>, j0: int)
  {
    && Sized(mx, n, m, i, u, v, p)
    && SearchDuals(mx, n, m, i, u, v, p, done != {})
    && Grown(m, p, way, used, done, j0)
    && Edges(mx, n, m, i, u, v, p, way, used, done, rank, j0)
    && Fringe(mx, n, m, i, u, v, p, way, used, minv, done, j0)
  }

  /** Between the two inner loops: column `j1` is nearest but its edge is not tight yet. */
  ghost predicate Midway(mx: Matrix, n: nat, m: nat, i: nat, u: seq<real>, v: seq<real>, p: seq<int>, way: seq<int>,
                         used: seq<bool>, minv: seq<real>, done: set<int>, rank: seq<int>, j1: int, delta: real)
  {
    && Sized(mx, n, m, i, u, v, p)
    && SearchDuals(mx, n, m, i, u, v, p, done != {0})
    && Grown(m, p, way, used, done, j1) && 0 in done
    && |rank| == m + 1 && |minv| == m + 1
    && (forall j :: 1 <= j <= m && j in done ==> Reduced(mx, n, m, i, u, v, p, way[j], j) == 0.0)
    && (forall j :: 1 <= j <= m && j in done ==> rank[way[j]] < rank[j])
    && (forall j :: j in done ==> 0 <= rank[j] < |done|)
    && (forall j :: 1 <= j <= m && j !in done ==>
          minv[j] == Reduced(mx, n, m, i, u, v, p, way[j], j) && (done != {0} ==> minv[j] >= 0.0))
    && (forall j, c :: 1 <= j <= m && j !in done && c in done ==>
          minv[j] <= Reduced(mx, n, m, i, u, v, p, c, j))
    && delta == minv[j1] && (forall j :: 1 <= j <= m && j !in done ==> delta <= minv[j])
  }

  /** Using column `j0` keeps the tree; the fringe now also counts the row in `j0`. */
  lemma RelaxKeeps(mx: Matrix, n: nat, m: nat, i: nat, u: seq<real>, v: seq<real>, p: seq<int>, way: seq<int>,
                   used: seq<bool>, minv: seq<real>, done: set<int>, rank: seq<int>, j0: int, way1: seq<int>,
                   minv1: seq<real>, delta: real, j1: int)
    requires Searching(mx, n, m, i, u, v, p, way, used, minv, done, rank, j0) && p[j0] != 0
    requires forall j :: 1 <= j <= m && j !in done && j != j0 ==> Reduced(mx, n, m, i, u, v, p, j0, j) < K_INF
    requires Relaxed(mx, n, m, i, u, v, p, used[j0 := true], j0, way, minv, way1, minv1, delta, j1)
    ensures Midway(mx, n, m, i, u, v, p, way1, used[j0 := true], minv1, done + {j0}, rank[j0 := |done|], j1, delta)
  {
    if done != {} {
      forall j | 1 <= j <= m ensures Reduced(mx, n, m, i, u, v, p, j0, j) >= 0.0 {
        assert u[p[j0]] + v[j] <= At(mx, p[j0], j);
      }
    }
  }

  /** Shifting by the nearest distance keeps the potentials feasible, and tight where they were. */
  lemma ShiftKeepsDuals(mx: Matrix, n: nat, m: nat, i: nat, u: seq<real>, v: seq<real>, p: seq<int>, q: seq<int>,
                        done: set<int>, delta: real, u2: seq<real>, v2: seq<real>)
    requires Sized(mx, n, m, i, u, v, p) && SearchDuals(mx, n, m, i, u, v, p, done != {0})
    requires Inverts(p, q) && 0 in done
    requires forall j :: j in done ==> 0 <= j <= m && p[j] != 0
    requires forall j, c :: 1 <= j <= m && j !in done && c in done ==>
               delta <= Reduced(mx, n, m, i, u, v, p, c, j)
    requires done != {0} ==> delta >= 0.0
    requires done == {0} ==> exists j :: 1 <= j <= m && delta == Reduced(mx, n, m, i, u, v, p, 0, j)
    requires |u2| == n + 1 && |v2| == m + 1
    requires forall j :: 0 <= j <= m ==> v2[j] == if j in done then v[j] - delta else v[j]
    requires forall j :: j in done ==> u2[p[j]] == u[p[j]] + delta
    requires forall r :: 0 <= r <= n && (forall j :: j in done ==> p[j] != r) ==> u2[r] == u[r]
    ensures SearchDuals(mx, n, m, i, u2, v2, p, true)
  {
    forall r, j | 1 <= r <= i && 1 <= j <= m ensures u2[r] + v2[j] <= At(mx, r, j) {
      if c :| c in done && p[c] == r {
        if j !in done {
          assert delta <= Reduced(mx, n, m, i, u, v, p, c, j);
        } else {
          assert u[r] + v[j] <= At(mx, r, j);
        }
      } else {
        assert u[r] + v[j] <= At(mx, r, j);
      }
    }
    forall j | 1 <= j <= m && p[j] != 0 ensures u2[p[j]] + v2[j] == At(mx, p[j], j) {
      if j !in done {
        forall c | c in done ensures p[c] != p[j] {
          assert q[p[c]] == c && q[p[j]] == j;
        }
      }
    }
    assert u2[p[0]] == u[p[0]] + delta;
    if done == {0} {
      var j :| 1 <= j <= m && delta == Reduced(mx, n, m, i, u, v, p, 0, j);
      assert At(mx, i, j) > -COST_LIMIT;
    }
  }

  /** After the shift the nearest column hangs on a tight edge and the fringe is measured anew. */
  lemma ShiftKeepsTree(mx: Matrix, n: nat, m: nat, i: nat, u: seq<real>, v: seq<real>, p: seq<int>, way: seq<int>,
                       used: seq<bool>, minv: seq<real>, done: set<int>, rank: seq<int>, j1: int, delta: real,
                       u2: seq<real>, v2: seq<real>, minv2: seq<real>)
    requires Midway(mx, n, m, i, u, v, p, way, used, minv, done, rank, j1, delta)
    requires Shifted(n, m, p, used, delta, u, v, minv, u2, v2, minv2)
    ensures Edges(mx, n, m, i, u2, v2, p, way, used, done, rank, j1)
    ensures Fringe(mx, n, m, i, u2, v2, p, way, used, minv2, done, j1)
  {
    forall j, c | 1 <= j <= m && c in done
      ensures Reduced(mx, n, m, i, u2, v2, p, c, j)
           == Reduced(mx, n, m, i, u, v, p, c, j) - if j in done then 0.0 else delta
    {
    }
  }

  lemma ShiftKeeps(mx: Matrix, n: nat, m: nat, i: nat, u: seq<real>, v: seq<real>, p: seq<int>, q: seq<int>,
                   way: seq<int>, used: seq<bool>, minv: seq<real>, done: set<int>, rank: seq<int>, j1: int,
                   delta: real, u2: seq<real>, v2: seq<real>, minv2: seq<real>)
    requires Midway(mx, n, m, i, u, v, p, way, used, minv, done, rank, j1, delta) && Inverts(p, q)
    requires Shifted(n, m, p, used, delta, u, v, minv, u2, v2, minv2)
    ensures Searching(mx, n, m, i, u2, v2, p, way, used, minv2, done, rank, j1)
  {
    assert done == {0} ==> way[j1] == 0;
    assert delta == Reduced(mx, n, m, i, u, v, p, way[j1], j1);
    ShiftKeepsDuals(mx, n, m, i, u, v, p, q, done, delta, u2, v2);
    ShiftKeepsTree(mx, n, m, i, u, v, p, way, used, minv, done, rank, j1, delta, u2, v2, minv2);
  }

  /** First half of the do-while body: use column `j0` and find the nearest unused column. */
  method Reach(mx: Matrix, n: nat, m: nat, i: nat, u: array<real>, v: array<real>, p: array<int>, way: array<int>,
               minv: array<real>, used: array<bool>, j0: int, ghost q: seq<int>, ghost done: set<int>,
               ghost rank: seq<int>)
    returns (delta: real, j1: int)
    requires Searching(mx, n, m, i, u[..], v[..], p[..], way[..], used[..], minv[..], done, rank, j0)
    requires way != p && minv != u && minv != v
    requires Inverts(p[..], q) && p[..][j0] != 0
    modifies way, minv, used
    ensures |rank| == m + 1
    ensures Midway(mx, n, m, i, u[..], v[..], p[..], way[..], used[..], minv[..],
                   done + {j0}, rank[j0 := |done|], j1, delta)
  {
    ghost var U, V, P, way0, used0, minv0 := u[..], v[..], p[..], way[..], used[..], minv[..];
    ghost var f := FreeColumn(P, q, m, i);
    forall j | 1 <= j <= m ensures Reduced(mx, n, m, i, U, V, P, j0, j) < K_INF {
      ReducedBelowInf(mx, n, m, i, U, V, P, q, done != {}, j0, j);
    }
    used[j0] := true;
    assert used[..] == used0[j0 := true] && !used[f];
    assert u[..] == U && v[..] == V && p[..] == P && way[..] == way0 && minv[..] == minv0;
    delta, j1 := Relax(mx, n, m, i, u, v, p, way, minv, used, j0);
    assert u[..] == U && v[..] == V && p[..] == P && used[..] == used0[j0 := true];
    RelaxKeeps(mx, n, m, i, U, V, P, way0, used0, minv0, done, rank, j0, way[..], minv[..], delta, j1);
  }

  /** Second half: shift the potentials so that the edge to `j1` becomes tight. */
  method Settle(mx: Matrix, n: nat, m: nat, i: nat, u: array<real>, v: array<real>, p: array<int>, way: array<int>,
                minv: array<real>, used: array<bool>, j1: int, delta: real, ghost q: seq<int>, ghost done: set<int>,
                ghost rank: seq<int>)
    requires Midway(mx, n, m, i, u[..], v[..], p[..], way[..], used[..], minv[..], done, rank, j1, delta)
    requires u != v && minv != u && minv != v
    requires Inverts(p[..], q)
    modifies u, v, minv
    ensures Searching(mx, n, m, i, u[..], v[..], p[..], way[..], used[..], minv[..], done, rank, j1)
  {
    ghost var U, V, P, minv1 := u[..], v[..], p[..], minv[..];
    Shift(n, m, u, v, p, minv, used, delta, q);
    ShiftKeeps(mx, n, m, i, U, V, P, q, way[..], used[..], minv1, done, rank, j1, delta, u[..], v[..], minv[..]);
  }

  /** The do-while body: both halves. */
  method Advance(mx: Matrix, n: nat, m: nat, i: nat, u: array<real>, v: array<real>, p: array<int>, way: array<int>,
                 minv: array<real>, used: array<bool>, j0: int, ghost q: seq<int>, ghost done0: set<int>,
                 ghost rank0: seq<int>)
    returns (j1: int, ghost done: set<int>, ghost rank: seq<int>)
    requires Searching(mx, n, m, i, u[..], v[..], p[..], way[..], used[..], minv[..], done0, rank0, j0)
    requires way != p && minv != u && minv != v && u != v
    requires Inverts(p[..], q) && p[..][j0] != 0
    modifies u, v, way, minv, used
    ensures Searching(mx, n, m, i, u[..], v[..], p[..], way[..], used[..], minv[..], done, rank, j1)
    ensures done == done0 + {j0}
  {
    var delta;
    delta, j1 := Reach(mx, n, m, i, u, v, p, way, minv, used, j0, q, done0, rank0);
    done, rank := done0 + {j0}, rank0[j0 := |done0|];
    Settle(mx, n, m, i, u, v, p, way, minv, used, j1, delta, q, done, rank);
  }

  ghost function Upto(m: nat): (s: set<int>)
    ensures forall j :: j in s <==> 0 <= j <= m
  {
    if m == 0 then {0} else Upto(m - 1) + {m}
  }

  /** The do-while search for row `i`: it stops at a free column joined to the root by tight edges. */
  method Search(mx: Matrix, n: nat, m: nat, i: nat, u: array<real>, v: array<real>, p: array<int>, way: array<int>,
                ghost q: seq<int>)
    returns (j0: int, ghost used': seq<bool>, ghost done: set<int>, ghost rank: seq<int>)
    requires u.Length == n + 1 && v.Length == m + 1 && p.Length == m + 1 && way.Length == m + 1
    requires u != v && way != p
    requires Sized(mx, n, m, i, u[..], v[..], p[..])
    requires SearchDuals(mx, n, m, i, u[..], v[..], p[..], false)
    requires Inverts(p[..], q)
    modifies u, v, way
    ensures Sized(mx, n, m, i, u[..], v[..], p[..])
    ensures SearchDuals(mx, n, m, i, u[..], v[..], p[..], true)
    ensures Grown(m, p[..], way[..], used', done, j0) && done != {} && p[j0] == 0
    ensures Edges(mx, n, m, i, u[..], v[..], p[..], way[..], used', done, rank, j0)
  {
    var minv := new real[m + 1](_ => K_INF);
    var used := new bool[m + 1](_ => false);
    j0, done := 0, {};
    rank := seq(m + 1, _ => 0);
    while p[j0] != 0
      invariant Searching(mx, n, m, i, u[..], v[..], p[..], way[..], used[..], minv[..], done, rank, j0)
      decreases Upto(m) - done
    {
      assert j0 in Upto(m) - done;
      j0, done, rank := Advance(mx, n, m, i, u, v, p, way, minv, used, j0, q, done, rank);
    }
    used' := used[..];
  }

  /** Mid-walk: every row up to `i` sits on a tight edge of a column other than the hole `j0`;
      the tree columns ranked up to the hole still hold the rows `P` they had. */
  ghost predicate Walking(mx: Matrix, n: nat, m: nat, i: nat, u: seq<real>, v: seq<real>, P: seq<int>, p: seq<int>,
                          q: seq<int>, done: set<int>, rank: seq<int>, start: int, j0: int)
    requires Sized(mx, n, m, i, u, v, P) && |rank| == m + 1
    requires forall j :: j in done ==> 0 <= j <= m
  {
    && 0 <= j0 <= m && (j0 == start || j0 in done)
    && |p| == m + 1 && |q| == n + 1 && Placed(p, q, m, i, j0)
    && (forall j :: j in done && (j0 in done ==> rank[j] <= rank[j0]) ==> p[j] == P[j])
    && (forall j :: 1 <= j <= m && j != j0 && p[j] != 0 ==> u[p[j]] + v[j] == At(mx, p[j], j))
    && (forall j :: 1 <= j <= m && j != j0 && p[j] == 0 ==> v[j] == 0.0)
  }

  lemma WalkStep(mx: Matrix, n: nat, m: nat, i: nat, u: seq<real>, v: seq<real>, P: seq<int>, way: seq<int>,
                 used: seq<bool>, p: seq<int>, q: seq<int>, done: set<int>, rank: seq<int>, start: int, j0: int)
    requires Sized(mx, n, m, i, u, v, P) && Grown(m, P, way, used, done, start) && done != {}
    requires Edges(mx, n, m, i, u, v, P, way, used, done, rank, start)
    requires Walking(mx, n, m, i, u, v, P, p, q, done, rank, start, j0) && j0 != 0
    ensures 1 <= p[way[j0]] <= i
    ensures Walking(mx, n, m, i, u, v, P, p[j0 := p[way[j0]]], q[p[way[j0]] := j0], done, rank, start, way[j0])
    ensures j0 in done ==> rank[way[j0]] < rank[j0]
  {
    var j1 := way[j0];
    assert j1 in done && p[j1] == P[j1];
    assert Reduced(mx, n, m, i, u, v, P, way[j0], j0) == 0.0;
  }

  lemma WalkDone(mx: Matrix, n: nat, m: nat, i: nat, u: seq<real>, v: seq<real>, P: seq<int>, p: seq<int>, q: seq<int>,
                 done: set<int>, rank: seq<int>, start: int)
    requires Sized(mx, n, m, i, u, v, P) && SearchDuals(mx, n, m, i, u, v, P, true) && |rank| == m + 1
    requires forall j :: j in done ==> 0 <= j <= m
    requires Walking(mx, n, m, i, u, v, P, p, q, done, rank, start, 0)
    ensures Duals(mx, n, m, i, u, v, p)
  {
  }

  /** Along `path`, led by `way`, every column but the last took the row of the next; all others kept theirs. */
  ghost predicate Moved(way: seq<int>, P: seq<int>, p: seq<int>, path: seq<int>) {
    && |p| == |P| == |way| && |path| > 0
    && (forall k :: 0 <= k < |path| ==> 0 <= path[k] < |p|)
    && (forall k :: 0 <= k < |path| - 1 ==> path[k + 1] == way[path[k]] && p[path[k]] == P[path[k + 1]])
    && (forall j :: 0 <= j < |p| && j !in path[..|path| - 1] ==> p[j] == P[j])
  }

  /** The path never comes back: it started outside the tree and goes down in rank. */
  ghost predicate Descends(done: set<int>, rank: seq<int>, path: seq<int>, start: int, j0: int)
    requires forall j :: j in done ==> 0 <= j < |rank|
  {
    forall k :: 0 <= k < |path| - 1 ==>
      || (path[k] == start && start !in done && j0 in done)
      || (path[k] in done && j0 in done && rank[j0] < rank[path[k]])
  }

  lemma MovedOn(way: seq<int>, P: seq<int>, p: seq<int>, path: seq<int>, j0: int, j1: int)
    requires Moved(way, P, p, path) && path[|path| - 1] == j0 && 0 <= j1 < |p| && j1 == way[j0] && p[j1] == P[j1]
    requires forall k :: 0 <= k < |path| - 1 ==> path[k] != j0
    ensures Moved(way, P, p[j0 := p[j1]], path + [j1])
  {
    var p', path' := p[j0 := p[j1]], path + [j1];
    assert path'[..|path'| - 1] == path;
    forall j | 0 <= j < |p'| && j !in path ensures p'[j] == P[j] {
      assert path[|path| - 1] in path;
    }
  }

  /** The path so far: from `start` down the tree to `j0`. */
  ghost predicate OnWay(way: seq<int>, P: seq<int>, p: seq<int>, done: set<int>, rank: seq<int>, start: int, j0: int,
                        path: seq<int>)
    requires forall j :: j in done ==> 0 <= j < |rank|
  {
    && Moved(way, P, p, path) && path[0] == start && path[|path| - 1] == j0 && Descends(done, rank, path, start, j0)
    && forall k :: 1 <= k < |path| ==> path[k] in done
  }

  lemma WalkOn(mx: Matrix, n: nat, m: nat, i: nat, u: seq<real>, v: seq<real>, P: seq<int>, way: seq<int>,
               used: seq<bool>, p: seq<int>, q: seq<int>, done: set<int>, rank: seq<int>, start: int, j0: int,
               path: seq<int>)
    requires Sized(mx, n, m, i, u, v, P) && Grown(m, P, way, used, done, start) && done != {}
    requires Edges(mx, n, m, i, u, v, P, way, used, done, rank, start)
    requires Walking(mx, n, m, i, u, v, P, p, q, done, rank, start, j0) && j0 != 0
    requires OnWay(way, P, p, done, rank, start, j0, path)
    ensures j0 in done ==> rank[way[j0]] < rank[j0]
    ensures 1 <= p[way[j0]] <= i
    ensures Walking(mx, n, m, i, u, v, P, p[j0 := p[way[j0]]], q[p[way[j0]] := j0], done, rank, start, way[j0])
    ensures OnWay(way, P, p[j0 := p[way[j0]]], done, rank, start, way[j0], path + [way[j0]])
  {
    WalkStep(mx, n, m, i, u, v, P, way, used, p, q, done, rank, start, j0);
    MovedOn(way, P, p, path, j0, way[j0]);
  }

  /** The walk back along `way`: every row of the tree path moves one column towards the free one, and no other
      row moves. */
  method Walk(mx: Matrix, n: nat, m: nat, i: nat, u: array<real>, v: array<real>, p: array<int>, way: array<int>,
              start: int, ghost used: seq<bool>, ghost done: set<int>, ghost rank: seq<int>, ghost q0: seq<int>)
    returns (ghost q: seq<int>, ghost path: seq<int>)
    requires Sized(mx, n, m, i, u[..], v[..], p[..]) && SearchDuals(mx, n, m, i, u[..], v[..], p[..], true)
    requires Grown(m, p[..], way[..], used, done, start) && done != {} && p[..][start] == 0
    requires Edges(mx, n, m, i, u[..], v[..], p[..], way[..], used, done, rank, start)
    requires |q0| == n + 1 && Placed(p[..], q0, m, i, start)
    requires p != way
    modifies p
    ensures |q| == n + 1 && Placed(p[..], q, m, i, 0)
    ensures Duals(mx, n, m, i, u[..], v[..], p[..])
    ensures Moved(way[..], old(p[..]), p[..], path) && path[0] == start && path[|path| - 1] == 0
    ensures forall k :: 1 <= k < |path| ==> path[k] in done
  {
    ghost var U, V, P, W := u[..], v[..], p[..], way[..];
    var j0 := start;
    q, path := q0, [start];
    while j0 != 0
      invariant u[..] == U && v[..] == V && way[..] == W
      invariant Walking(mx, n, m, i, U, V, P, p[..], q, done, rank, start, j0)
      invariant OnWay(W, P, p[..], done, rank, start, j0, path)
      decreases if j0 in done then rank[j0] else |done|
    {
      ghost var p0 := p[..];
      WalkOn(mx, n, m, i, U, V, P, W, used, p0, q, done, rank, start, j0, path);
      var j1 := way[j0];
      assert W[j0] == j1;
      p[j0] := p[j1];
      assert p[..] == p0[j0 := p0[j1]];
      q, path := q[p0[j1] := j0], path + [j1];
      j0 := j1;
    }
    WalkDone(mx, n, m, i, U, V, P, p[..], q, done, rank, start);
  }

  // ----- the whole solver -----

  lemma Rooted(mx: Matrix, n: nat, m: nat, i: nat, u: seq<real>, v: seq<real>, p0: seq<int>, p: seq<int>, q0: seq<int>,
               q: seq<int>)
    requires 1 <= i <= n && Duals(mx, n, m, i - 1, u, v, p0)
    requires |q0| == n + 1 && Placed(p0, q0, m, i - 1, 0)
    requires p == p0[0 := i] && q == q0[i := 0]
    ensures Sized(mx, n, m, i, u, v, p) && SearchDuals(mx, n, m, i, u, v, p, false)
    ensures Inverts(p, q)
    ensures forall f :: 1 <= f <= m && p[f] == 0 ==> Placed(p, q, m, i, f)
  {
  }

  /** One outer step: row `i` joins the matching and every earlier row stays matched. */
  method Augment(mx: Matrix, n: nat, m: nat, i: nat, u: array<real>, v: array<real>, p: array<int>, way: array<int>,
                 ghost q0: seq<int>)
    returns (ghost q: seq<int>)
    requires 1 <= i <= n && p.Length == m + 1 && way.Length == m + 1 && p != way && u != v
    requires Duals(mx, n, m, i - 1, u[..], v[..], p[..])
    requires |q0| == n + 1 && Placed(p[..], q0, m, i - 1, 0)
    modifies u, v, p, way
    ensures Duals(mx, n, m, i, u[..], v[..], p[..])
    ensures |q| == n + 1 && Placed(p[..], q, m, i, 0)
  {
    ghost var p0 := p[..];
    p[0] := i;
    q := q0[i := 0];
    assert p[..] == p0[0 := i];
    Rooted(mx, n, m, i, u[..], v[..], p0, p[..], q0, q);
    ghost var P := p[..];
    ghost var used, done, rank;
    var j0;
    j0, used, done, rank := Search(mx, n, m, i, u, v, p, way, q);
    assert p[..] == P;
    ghost var path;
    q, path := Walk(mx, n, m, i, u, v, p, way, j0, used, done, rank, q);
  }

  /** Rows matched by `p`, as the source reads them off. */
  ghost predicate ReadOff(rowToCol: seq<int>, p: seq<int>, q: seq<int>, n: nat, m: nat)
    requires Placed(p, q, m, n, 0)
  {
    |rowToCol| == n && forall r :: 0 <= r < n ==> rowToCol[r] == q[r + 1] - 1
  }

  lemma ReadOffMatches(p: seq<int>, q: seq<int>, n: nat, m: nat, rowToCol: seq<int>)
    requires Placed(p, q, m, n, 0) && ReadOff(rowToCol, p, q, n, m)
    ensures IsMatching(rowToCol, n, m)
    ensures forall r :: 0 <= r < n ==> 0 <= rowToCol[r] < m && p[rowToCol[r] + 1] == r + 1
    ensures forall c :: 0 <= c < m && c !in rowToCol ==> p[c + 1] == 0
  {
    forall r | 0 <= r < n ensures 0 <= rowToCol[r] < m && p[rowToCol[r] + 1] == r + 1 {
      assert p[q[r + 1]] == r + 1;
    }
    forall c | 0 <= c < m && c !in rowToCol ensures p[c + 1] == 0 {
      if p[c + 1] != 0 {
        assert q[p[c + 1]] == c + 1;
        assert rowToCol[p[c + 1] - 1] == c;
      }
    }
  }

  lemma DualsAreFeasible(mx: Matrix, n: nat, m: nat, u: seq<real>, v: seq<real>, p: seq<int>, R: seq<real>,
                         Q: seq<real>)
    requires Duals(mx, n, m, n, u, v, p)
    requires |R| == n && (forall r :: 0 <= r < n ==> R[r] == u[r + 1])
    requires |Q| == m && (forall c :: 0 <= c < m ==> Q[c] == v[c + 1])
    ensures Rectangular(mx) && Cols(mx) == m && DualFeasible(mx, R, Q)
    ensures forall c :: 0 <= c < m ==> Q[c] <= 0.0 && (p[c + 1] == 0 ==> Q[c] == 0.0)
    ensures forall c :: 0 <= c < m && p[c + 1] != 0 ==> mx[p[c + 1] - 1][c] == R[p[c + 1] - 1] + Q[c]
  {
    forall r, c | 0 <= r < n && 0 <= c < m ensures R[r] + Q[c] <= mx[r][c] {
      assert u[r + 1] + v[c + 1] <= At(mx, r + 1, c + 1);
    }
    forall c | 0 <= c < m && p[c + 1] != 0 ensures mx[p[c + 1] - 1][c] == R[p[c + 1] - 1] + Q[c] {
      assert u[p[c + 1]] + v[c + 1] == At(mx, p[c + 1], c + 1);
    }
  }

  /** The final potentials certify the matching read off. */
  lemma DualsCertify(mx: Matrix, n: nat, m: nat, p: seq<int>, rowToCol: seq<int>, R: seq<real>, Q: seq<real>)
    requires 1 <= n <= m && |mx| == n && |p| == m + 1 && IsMatching(rowToCol, n, m)
    requires forall r :: 0 <= r < n ==> 0 <= rowToCol[r] < m && p[rowToCol[r] + 1] == r + 1
    requires forall c :: 0 <= c < m && c !in rowToCol ==> p[c + 1] == 0
    requires Rectangular(mx) && Cols(mx) == m && DualFeasible(mx, R, Q)
    requires forall c :: 0 <= c < m ==> Q[c] <= 0.0 && (p[c + 1] == 0 ==> Q[c] == 0.0)
    requires forall c :: 0 <= c < m && 0 < p[c + 1] <= n ==> mx[p[c + 1] - 1][c] == R[p[c + 1] - 1] + Q[c]
    ensures Certified(mx, rowToCol, R, Q)
  {
  }

  /** The potentials of the last row certify the columns read off. */
  lemma Certificate(mx: Matrix, n: nat, m: nat, u: seq<real>, v: seq<real>, p: seq<int>, q: seq<int>,
                    rowToCol: seq<int>)
    returns (R: seq<real>, Q: seq<real>)
    requires Duals(mx, n, m, n, u, v, p) && Placed(p, q, m, n, 0) && ReadOff(rowToCol, p, q, n, m)
    ensures Rectangular(mx) && Certified(mx, rowToCol, R, Q)
  {
    R, Q := u[1..], v[1..];
    ReadOffMatches(p, q, n, m, rowToCol);
    DualsAreFeasible(mx, n, m, u, v, p, R, Q);
    DualsCertify(mx, n, m, p, rowToCol, R, Q);
  }

  /** Column of every row, from the row of every column. */
  method ColumnOfRow(n: nat, m: nat, p: seq<int>, ghost q: seq<int>) returns (rowToCol: seq<int>)
    requires |p| == m + 1 && |q| == n + 1 && Placed(p, q, m, n, 0)
    ensures ReadOff(rowToCol, p, q, n, m)
  {
    rowToCol := seq(n, _ => -1);
    for j := 1 to m + 1
      invariant |rowToCol| == n
      invariant forall r :: 0 <= r < n ==> rowToCol[r] == if p[q[r + 1]] == r + 1 && q[r + 1] < j then q[r + 1] - 1
                else -1
    {
      if p[j] != 0 {
        assert q[p[j]] == j;
        rowToCol := rowToCol[p[j] - 1 := j - 1];
      }
    }
  }

  /** The solver on a matrix with at least as many columns as rows. */
  method SolveWide(mx: Matrix, n: nat, m: nat) returns (rowToCol: seq<int>, ghost R: seq<real>, ghost Q: seq<real>)
    requires Wide(mx, n, m)
    ensures Rectangular(mx) && Certified(mx, rowToCol, R, Q)
  {
    var u := new real[n + 1](_ => 0.0);
    var v := new real[m + 1](_ => 0.0);
    var p := new int[m + 1](_ => 0);
    var way := new int[m + 1](_ => 0);
    ghost var q := seq(n + 1, _ => 0);
    for i := 1 to n + 1
      invariant Duals(mx, n, m, i - 1, u[..], v[..], p[..])
      invariant |q| == n + 1 && Placed(p[..], q, m, i - 1, 0)
    {
      q := Augment(mx, n, m, i, u, v, p, way, q);
    }
    rowToCol := ColumnOfRow(n, m, p[..], q);
    R, Q := Certificate(mx, n, m, u[..], v[..], p[..], q, rowToCol);
  }

  ghost predicate Transposes(tm: Matrix, mx: Matrix)
    requires Rectangular(mx)
  {
    && |tm| == Cols(mx)
    && (forall c :: 0 <= c < |tm| ==> |tm[c]| == |mx|)
    && (forall r, c :: 0 <= r < |mx| && 0 <= c < Cols(mx) ==> tm[c][r] == mx[r][c])
  }

  method Transpose(mx: Matrix) returns (tm: Matrix)
    requires Rectangular(mx)
    ensures Transposes(tm, mx)
  {
    var n, m := |mx|, Cols(mx);
    tm := seq(m, _ => seq(n, _ => 0.0));
    for r := 0 to n
      invariant |tm| == m && forall c :: 0 <= c < m ==> |tm[c]| == n
      invariant forall s, c :: 0 <= s < r && 0 <= c < m ==> tm[c][s] == mx[s][c]
    {
      for c := 0 to m
        invariant |tm| == m && forall c :: 0 <= c < m ==> |tm[c]| == n
        invariant forall s, d :: 0 <= s < r && 0 <= d < m ==> tm[d][s] == mx[s][d]
        invariant forall d :: 0 <= d < c ==> tm[d][r] == mx[r][d]
      {
        tm := tm[c := tm[c][r := mx[r][c]]];
      }
    }
  }

  /** `result` is `rowToCol` read the other way round. */
  ghost predicate Reverses(result: seq<int>, rowToCol: seq<int>) {
    && (forall c :: 0 <= c < |rowToCol| ==> 0 <= rowToCol[c] < |result| && result[rowToCol[c]] == c)
    && (forall r :: 0 <= r < |result| && result[r] >= 0 ==> result[r] < |rowToCol| && rowToCol[result[r]] == r)
    && (forall r :: 0 <= r < |result| ==> -1 <= result[r])
  }

  /** A certificate for the transposed matrix certifies the reversed matching of the original. */
  lemma CertifyTransposed(cost: Matrix, tm: Matrix, rowToCol: seq<int>, result: seq<int>, R: seq<real>, Q: seq<real>)
    requires Rectangular(cost) && Transposes(tm, cost) && 1 <= Cols(cost) < |cost|
    requires Rectangular(tm) && Certified(tm, rowToCol, R, Q)
    requires |result| == |cost| && Reverses(result, rowToCol)
    ensures Certified(cost, result, Q, R)
  {
    assert Cols(tm) == |cost| && |tm| == Cols(cost);
    forall r, c | 0 <= r < |cost| && 0 <= c < Cols(cost) ensures Q[r] + R[c] <= cost[r][c] {
      assert R[c] + Q[r] <= tm[c][r];
    }
    forall r | 0 <= r < |cost| && result[r] < 0 ensures Q[r] == 0.0 {
      assert r !in rowToCol;
    }
    forall c | 0 <= c < Cols(cost) ensures c in result {
      assert result[rowToCol[c]] == c;
    }
    forall r | 0 <= r < |cost| && result[r] >= 0 ensures cost[r][result[r]] == Q[r] + R[result[r]] {
      assert tm[result[r]][rowToCol[result[r]]] == R[result[r]] + Q[rowToCol[result[r]]];
    }
  }

  /** A cheapest assignment among all of the greatest size, for any rectangular matrix. */
  method SolveAssignment(cost: Matrix) returns (result: seq<int>)
    requires Rectangular(cost) && Bounded(cost)
    ensures IsOptimal(cost, result)
    ensures Size(result) == if |cost| <= Cols(cost) then |cost| else Cols(cost)
  {
    var rowsOriginal := |cost|;
    if rowsOriginal == 0 {
      CertifiedIsOptimal(cost, [], [], []);
      return [];
    }
    var colsOriginal := |cost[0]|;
    if colsOriginal == 0 {
      result := seq(rowsOriginal, _ => -1);
      CertifiedIsOptimal(cost, result, seq(rowsOriginal, _ => 0.0), []);
      return;
    }
    if rowsOriginal <= colsOriginal {
      ghost var R, Q;
      result, R, Q := SolveWide(cost, rowsOriginal, colsOriginal);
      CertifiedIsOptimal(cost, result, R, Q);
      return;
    }
    var tm := Transpose(cost);
    forall c, r | 0 <= c < |tm| && 0 <= r < |tm[c]| ensures -COST_LIMIT < tm[c][r] < COST_LIMIT {
      assert tm[c][r] == cost[r][c];
    }
    var rowToCol;
    ghost var R, Q;
    rowToCol, R, Q := SolveWide(tm, colsOriginal, rowsOriginal);
    result := seq(rowsOriginal, _ => -1);
    for prev := 0 to colsOriginal
      invariant |result| == rowsOriginal
      invariant forall c :: 0 <= c < prev ==> result[rowToCol[c]] == c
      invariant forall r :: 0 <= r < rowsOriginal ==>
                  result[r] == -1 || (0 <= result[r] < prev && rowToCol[result[r]] == r)
    {
      var cur := rowToCol[prev];
      if 0 <= cur < rowsOriginal { result := result[cur := prev]; }
    }
    CertifyTransposed(cost, tm, rowToCol, result, R, Q);
    CertifiedIsOptimal(cost, result, Q, R);
  }
}
