/** When a list is sorted by strength and cut: for which lists every sort puts the right entries first. */
module Pairing {
  import opened EngineTypes

  /** `order` lists the indices of all entries, the strongest first; the order of equals is open. */
  ghost predicate SortsDown(strength: seq<int>, order: seq<int>) {
    && |order| == |strength| && (forall k :: 0 <= k < |order| ==> 0 <= order[k] < |strength|)
    && (forall i, j :: 0 <= i < j < |order| ==> order[i] != order[j])
    && (forall i, j :: 0 <= i < j < |order| ==> strength[order[i]] >= strength[order[j]])
  }

  /** Each of the first `m` entries stands at the index of its zone. */
  ghost predicate PairsRight(zone: seq<int>, order: seq<int>, m: nat) {
    m <= |order| && forall k :: 0 <= k < m ==> 0 <= order[k] < |zone| && zone[order[k]] == k
  }

  // ----- sort orders -----

  /** Where an entry stands. */
  lemma PositionOf(strength: seq<int>, order: seq<int>, i: nat) returns (k: nat)
    requires SortsDown(strength, order) && i < |strength|
    ensures k < |order| && order[k] == i
  {
    var ids := seq(|order|, k requires 0 <= k < |order| => order[k] + 1);
    DistinctBelow(ids, |strength|);
    assert i + 1 in ids;
    k :| 0 <= k < |ids| && ids[k] == i + 1;
  }

  lemma InsertedSorts(strength: seq<int>, order: seq<int>, k: nat)
    requires |strength| > 0 && SortsDown(strength[..|strength| - 1], order) && k <= |order|
    requires forall i :: 0 <= i < k ==> strength[order[i]] >= strength[|strength| - 1]
    requires forall i :: k <= i < |order| ==> strength[order[i]] <= strength[|strength| - 1]
    ensures SortsDown(strength, order[..k] + [|strength| - 1] + order[k..])
  {
    var x := |strength| - 1;
    var longer := order[..k] + [x] + order[k..];
    forall i | 0 <= i < |longer| ensures longer[i] == if i < k then order[i] else if i == k then x else order[i - 1] {
    }
  }

  /** Every list has a sort order. */
  lemma {:induction false} SortExists(strength: seq<int>) returns (order: seq<int>)
    ensures SortsDown(strength, order)
  {
    if |strength| == 0 { return []; }
    var x := |strength| - 1;
    var rest := SortExists(strength[..x]);
    var k := 0;
    while k < |rest| && strength[rest[k]] >= strength[x]
      invariant 0 <= k <= |rest| && forall i :: 0 <= i < k ==> strength[rest[i]] >= strength[x]
    {
      k := k + 1;
    }
    forall i | k <= i < |rest| ensures strength[rest[i]] <= strength[x] {
      assert i > k ==> strength[..x][rest[k]] >= strength[..x][rest[i]];
    }
    InsertedSorts(strength, rest, k);
    order := rest[..k] + [x] + rest[k..];
  }

  /** Equals may change places. */
  lemma SwapSorts(strength: seq<int>, order: seq<int>, a: nat, b: nat)
    requires SortsDown(strength, order) && a < b < |order| && strength[order[a]] == strength[order[b]]
    ensures SortsDown(strength, order[a := order[b]][b := order[a]])
  {
    var swapped := order[a := order[b]][b := order[a]];
    forall k | 0 <= k < |order| ensures strength[swapped[k]] == strength[order[k]] {
    }
  }

  // ----- the exact condition -----

  /** Zone by zone the first `m` have an entry stronger than those of all later zones, and the only one, but for the
      last of them. */
  ghost predicate Ranked(zone: seq<int>, strength: seq<int>, m: nat)
    requires |zone| == |strength|
  {
    forall k: nat {:trigger RankedAt(zone, strength, m, k)} :: k < m ==> RankedAt(zone, strength, m, k)
  }

  ghost predicate RankedAt(zone: seq<int>, strength: seq<int>, m: nat, k: nat)
    requires |zone| == |strength|
  {
    && (exists i :: 0 <= i < |zone| && zone[i] == k)
    && (forall i, j :: 0 <= i < |zone| && 0 <= j < |zone| && zone[i] == k < zone[j] ==> strength[i] > strength[j])
    && (k + 1 < m ==> forall i, j :: 0 <= i < |zone| && 0 <= j < |zone| && zone[i] == k == zone[j] ==> i == j)
  }

  /** Entries of one zone are equally strong. */
  ghost predicate EvenZones(zone: seq<int>, strength: seq<int>) {
    && |zone| == |strength| && (forall i :: 0 <= i < |zone| ==> zone[i] >= 0)
    && forall i, j :: 0 <= i < |zone| && 0 <= j < |zone| && zone[i] == zone[j] ==> strength[i] == strength[j]
  }

  lemma RightAt(zone: seq<int>, strength: seq<int>, order: seq<int>, m: nat, k: nat)
    requires EvenZones(zone, strength) && Ranked(zone, strength, m) && SortsDown(strength, order)
    requires k < m && PairsRight(zone, order, k) && k < |order|
    ensures zone[order[k]] == k
  {
    assert RankedAt(zone, strength, m, k);
    var q := zone[order[k]];
    if q < k { EarlierTaken(zone, strength, order, m, k, q, order[k]); }
    if zone[order[k]] > k {
      var i :| 0 <= i < |zone| && zone[i] == k;
      var p := PositionOf(strength, order, i);
    }
  }

  lemma EarlierTaken(zone: seq<int>, strength: seq<int>, order: seq<int>, m: nat, k: nat, q: nat, x: nat)
    requires |zone| == |strength| && Ranked(zone, strength, m) && q < k < m && PairsRight(zone, order, k)
    requires x < |zone| && zone[x] == q
    ensures x == order[q]
  {
    assert RankedAt(zone, strength, m, q);
  }

  lemma {:induction false} RankedPairsRight(zone: seq<int>, strength: seq<int>, order: seq<int>, m: nat, k: nat)
    requires EvenZones(zone, strength) && Ranked(zone, strength, m) && SortsDown(strength, order)
    requires k <= m <= |zone|
    ensures PairsRight(zone, order, k)
  {
    if k > 0 {
      RankedPairsRight(zone, strength, order, m, k - 1);
      RightAt(zone, strength, order, m, k - 1);
    }
  }

  /** All sorts put the right entries first. */
  ghost predicate AlwaysRight(zone: seq<int>, strength: seq<int>, m: nat) {
    forall order :: SortsDown(strength, order) ==> PairsRight(zone, order, m)
  }

  /** Equals that may change places are both right. */
  lemma SwapRight(zone: seq<int>, strength: seq<int>, m: nat, order: seq<int>, a: nat, b: nat)
    requires AlwaysRight(zone, strength, m) && SortsDown(strength, order) && a < b < |order| && a < m
    requires strength[order[a]] == strength[order[b]] && order[b] < |zone|
    ensures zone[order[b]] == a
  {
    var swapped := order[a := order[b]][b := order[a]];
    SwapSorts(strength, order, a, b);
    assert swapped[a] == order[b];
    assert PairsRight(zone, swapped, m);
  }

  lemma StrongerNeeded(zone: seq<int>, strength: seq<int>, m: nat, k: nat, order: seq<int>, i: nat, j: nat)
    requires EvenZones(zone, strength) && AlwaysRight(zone, strength, m) && k < m && SortsDown(strength, order)
    requires i < |zone| && j < |zone| && zone[i] == k < zone[j]
    ensures strength[i] > strength[j]
  {
    assert PairsRight(zone, order, m) && zone[order[k]] == k;
    var p := PositionOf(strength, order, j);
    if strength[i] <= strength[j] { SwapRight(zone, strength, m, order, k, p); }
  }

  lemma UniqueNeeded(zone: seq<int>, strength: seq<int>, m: nat, k: nat, order: seq<int>, x: nat)
    requires EvenZones(zone, strength) && AlwaysRight(zone, strength, m) && k + 1 < m && SortsDown(strength, order)
    requires x < |zone| && zone[x] == k
    ensures PairsRight(zone, order, m) && x == order[k]
  {
    assert PairsRight(zone, order, m) && zone[order[k]] == k && zone[order[k + 1]] == k + 1;
    var p := PositionOf(strength, order, x);
    if p > k { SwapRight(zone, strength, m, order, k + 1, p); }
  }

  /** Every sort puts an entry of zone `k` at each index `k` before `m` exactly when the zones are ranked. */
  lemma AlwaysRightIff(zone: seq<int>, strength: seq<int>, m: nat)
    requires EvenZones(zone, strength) && m <= |zone|
    ensures AlwaysRight(zone, strength, m) <==> Ranked(zone, strength, m)
  {
    if Ranked(zone, strength, m) {
      forall order | SortsDown(strength, order) ensures PairsRight(zone, order, m) {
        RankedPairsRight(zone, strength, order, m, m);
      }
    }
    if AlwaysRight(zone, strength, m) {
      var order := SortExists(strength);
      assert PairsRight(zone, order, m);
      forall k: nat | k < m ensures RankedAt(zone, strength, m, k) {
        AlwaysRanked(zone, strength, m, k, order);
      }
    }
  }

  lemma AlwaysRanked(zone: seq<int>, strength: seq<int>, m: nat, k: nat, order: seq<int>)
    requires EvenZones(zone, strength) && AlwaysRight(zone, strength, m) && k < m && SortsDown(strength, order)
    ensures RankedAt(zone, strength, m, k)
  {
    assert PairsRight(zone, order, m) && zone[order[k]] == k;
    forall i, j | 0 <= i < |zone| && 0 <= j < |zone| && zone[i] == k < zone[j] ensures strength[i] > strength[j] {
      StrongerNeeded(zone, strength, m, k, order, i, j);
    }
    forall i, j | k + 1 < m && 0 <= i < |zone| && 0 <= j < |zone| && zone[i] == k == zone[j] ensures i == j {
      UniqueNeeded(zone, strength, m, k, order, i);
      UniqueNeeded(zone, strength, m, k, order, j);
    }
  }

  // ----- sort orders and sorted lists -----

  function Without<T>(a: seq<T>, i: nat): (b: seq<T>)
    requires i < |a|
    ensures |b| == |a| - 1 && forall k :: 0 <= k < |b| ==> b[k] == a[if k < i then k else k + 1]
  {
    a[..i] + a[i + 1..]
  }

  lemma WithoutContents<T>(a: seq<T>, i: nat)
    requires i < |a|
    ensures multiset(Without(a, i)) + multiset{a[i]} == multiset(a)
  {
    assert a == a[..i] + [a[i]] + a[i + 1..];
  }

  ghost predicate Selects<T>(a: seq<T>, order: seq<int>, s: seq<T>) {
    && |order| == |a| == |s| && (forall k :: 0 <= k < |order| ==> 0 <= order[k] < |a| && s[k] == a[order[k]])
    && forall i, j :: 0 <= i < j < |order| ==> order[i] != order[j]
  }

  /** A list of the same entries is a selection. */
  lemma {:induction false} SameEntriesSelect<T>(a: seq<T>, s: seq<T>) returns (order: seq<int>)
    requires multiset(a) == multiset(s)
    ensures Selects(a, order, s)
  {
    assert |multiset(a)| == |multiset(s)|;
    if |s| == 0 { return []; }
    var n := |s| - 1;
    assert s == s[..n] + [s[n]];
    assert s[n] in multiset(a);
    var i :| 0 <= i < |a| && a[i] == s[n];
    WithoutContents(a, i);
    assert multiset(s) == multiset(s[..n]) + multiset{s[n]};
    assert multiset(Without(a, i)) == multiset(a) - multiset{s[n]} == multiset(s[..n]);
    var rest := SameEntriesSelect(Without(a, i), s[..n]);
    order := SelectLonger(a, i, rest, s);
  }

  lemma SelectLonger<T>(a: seq<T>, i: nat, rest: seq<int>, s: seq<T>) returns (order: seq<int>)
    requires i < |a| && |s| > 0 && Selects(Without(a, i), rest, s[..|s| - 1]) && a[i] == s[|s| - 1]
    ensures Selects(a, order, s)
  {
    var n := |s| - 1;
    order := seq(n, k requires 0 <= k < n => if rest[k] < i then rest[k] else rest[k] + 1) + [i];
    forall k | 0 <= k < n ensures s[k] == a[order[k]] { assert s[..n][k] == s[k]; }
  }

  /** A selection has the same entries. */
  lemma {:induction false} SelectedSame<T>(a: seq<T>, order: seq<int>, s: seq<T>)
    requires Selects(a, order, s)
    ensures multiset(a) == multiset(s)
  {
    if |s| > 0 {
      var n := |s| - 1;
      var i := order[n];
      var rest := seq(n, k requires 0 <= k < n => if order[k] < i then order[k] else order[k] - 1);
      assert s == s[..n] + [s[n]];
      WithoutContents(a, i);
      SelectedSame(Without(a, i), rest, s[..n]);
    }
  }
}
