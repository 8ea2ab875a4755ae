/** A stable sort by insertion; it stands in for the sorts of the C++ library, of which the callers use only
    the order and the contents of the result. */
module Sorting {

  ghost predicate Ascending<T>(s: seq<T>, key: T -> int) {
    forall i, j :: 0 <= i < j < |s| ==> key(s[i]) <= key(s[j])
  }

  lemma InsertedInOrder<T>(s: seq<T>, key: T -> int, k: nat, x: T)
    requires Ascending(s, key) && k <= |s| && (forall i :: 0 <= i < k ==> key(s[i]) <= key(x))
    requires k < |s| ==> key(s[k]) >= key(x)
    ensures Ascending(s[..k] + [x] + s[k..], key)
  {
    var t := s[..k] + [x] + s[k..];
    forall i, j | 0 <= i < j < |t| ensures key(t[i]) <= key(t[j]) {
      assert t[i] == (if i < k then s[i] else if i == k then x else s[i - 1]);
      assert t[j] == (if j < k then s[j] else if j == k then x else s[j - 1]);
    }
  }

  method Insert<T>(s: seq<T>, key: T -> int, x: T) returns (t: seq<T>)
    requires Ascending(s, key)
    ensures Ascending(t, key) && multiset(t) == multiset(s) + multiset{x}
  {
    var k := 0;
    while k < |s| && key(s[k]) <= key(x)
      invariant 0 <= k <= |s|
      invariant forall i :: 0 <= i < k ==> key(s[i]) <= key(x)
    {
      k := k + 1;
    }
    t := s[..k] + [x] + s[k..];
    InsertedInOrder(s, key, k, x);
    assert s == s[..k] + s[k..];
  }

  method Sort<T>(xs: seq<T>, key: T -> int) returns (s: seq<T>)
    ensures Ascending(s, key) && multiset(s) == multiset(xs)
  {
    s := [];
    for i := 0 to |xs|
      invariant Ascending(s, key) && multiset(s) == multiset(xs[..i])
    {
      assert xs[..i + 1] == xs[..i] + [xs[i]];
      s := Insert(s, key, xs[i]);
    }
    assert xs[..|xs|] == xs;
  }
}
