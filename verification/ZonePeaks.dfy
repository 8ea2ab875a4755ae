/** Which zone every peak belongs to, and the lists of peaks the zones keep. */
module ZonePeaks {
  import opened ZoneGrid

  /** `labels[q]` is the zone of peak `q`; zone `p + 1` was flooded from peak `p`, which is its first peak. */
  ghost predicate Rooted(labels: seq<int>) {
    forall q :: 0 <= q < |labels| ==> 1 <= labels[q] <= q + 1 && labels[labels[q] - 1] == labels[q]
  }

  predicate IsRoot(labels: seq<int>, p: nat)
    requires p < |labels|
  {
    labels[p] == p + 1
  }

  /** Peaks before `k` in zone `p + 1`, in order. */
  function Owned(labels: seq<int>, p: int, k: nat): seq<int>
    requires k <= |labels|
  {
    if k == 0 then []
    else Owned(labels, p, k - 1) + if labels[k - 1] == p + 1 then [k - 1] else []
  }

  lemma {:induction false} OwnedMeans(labels: seq<int>, p: int, k: nat)
    requires k <= |labels|
    ensures forall q :: q in Owned(labels, p, k) <==> 0 <= q < k && labels[q] == p + 1
    ensures Distinct(Owned(labels, p, k))
  {
    if k > 0 {
      OwnedMeans(labels, p, k - 1);
      var before := Owned(labels, p, k - 1);
      if labels[k - 1] == p + 1 {
        DistinctAppend(before, k - 1);
        assert Owned(labels, p, k) == before + [k - 1];
      } else {
        assert Owned(labels, p, k) == before;
      }
    }
  }

  lemma NothingListed(s: seq<int>)
    ensures s == [] || exists q :: q in s
  {
    if |s| > 0 {
      var q := s[0];
      assert q in s;
    }
  }

  /** A zone's own peak comes first in its list. */
  lemma {:induction false} OwnedStarts(labels: seq<int>, p: nat, k: nat)
    requires p < k <= |labels| && Rooted(labels) && IsRoot(labels, p)
    ensures |Owned(labels, p, k)| >= 1 && Owned(labels, p, k)[0] == p
  {
    if k == p + 1 {
      OwnedMeans(labels, p, p);
      var before := Owned(labels, p, p);
      forall q | 0 <= q < p ensures labels[q] != p + 1 {
        assert labels[q] <= q + 1;
      }
      NothingListed(before);
      assert Owned(labels, p, k) == before + [p];
    } else {
      OwnedStarts(labels, p, k - 1);
    }
  }

  /** The lists of the first `p` zones, one after the other. */
  function Roster(labels: seq<int>, p: nat): seq<int>
    requires p <= |labels|
  {
    if p == 0 then []
    else Roster(labels, p - 1) + if IsRoot(labels, p - 1) then Owned(labels, p - 1, |labels|) else []
  }

  lemma {:induction false} DistinctConcat(a: seq<int>, b: seq<int>)
    requires Distinct(a) && Distinct(b) && forall x :: !(x in a && x in b)
    ensures Distinct(a + b)
  {
    if |b| == 0 {
      assert a + b == a;
    } else {
      var n := |b| - 1;
      assert forall x :: x in b[..n] ==> x in b;
      DistinctConcat(a, b[..n]);
      assert a + b == (a + b[..n]) + [b[n]];
      var x := b[n];
      assert x in b && x !in a && x !in b[..n];
      DistinctAppend(a + b[..n], x);
    }
  }

  lemma RosterGrows(labels: seq<int>, p: nat)
    requires 0 < p <= |labels| && Rooted(labels) && IsRoot(labels, p - 1) && Distinct(Roster(labels, p - 1))
    requires forall q :: q in Roster(labels, p - 1) <==> 0 <= q < |labels| && labels[q] <= p - 1
    ensures forall q :: q in Roster(labels, p) <==> 0 <= q < |labels| && labels[q] <= p
    ensures Distinct(Roster(labels, p))
  {
    var before, own := Roster(labels, p - 1), Owned(labels, p - 1, |labels|);
    OwnedMeans(labels, p - 1, |labels|);
    DistinctConcat(before, own);
    assert Roster(labels, p) == before + own;
  }

  /** No peak carries the label of a peak that roots no zone. */
  lemma NoZone(labels: seq<int>, p: nat, q: nat)
    requires 0 < p <= |labels| && Rooted(labels) && !IsRoot(labels, p - 1) && q < |labels|
    ensures labels[q] != p
  {
    assert labels[labels[q] - 1] == labels[q];
  }

  lemma {:induction false} RosterMeans(labels: seq<int>, p: nat)
    requires p <= |labels| && Rooted(labels)
    ensures forall q :: q in Roster(labels, p) <==> 0 <= q < |labels| && labels[q] <= p
    ensures Distinct(Roster(labels, p))
  {
    if p > 0 {
      RosterMeans(labels, p - 1);
      if IsRoot(labels, p - 1) {
        RosterGrows(labels, p);
      } else {
        forall q | 0 <= q < |labels| ensures labels[q] != p { NoZone(labels, p, q); }
        assert Roster(labels, p) == Roster(labels, p - 1);
      }
    }
  }

  lemma {:induction false} DistinctCovers(s: seq<int>, n: nat)
    requires Distinct(s) && forall q :: q in s <==> 0 <= q < n
    ensures |s| == n
  {
    assert forall i :: 0 <= i < |s| ==> s[i] in s;
    DistinctCells(s, n);
    AtLeast(s, n);
  }

  lemma {:induction false} AtLeast(s: seq<int>, n: nat)
    requires forall q :: 0 <= q < n ==> q in s
    ensures |s| >= n
  {
    if n > 0 {
      assert n - 1 in s;
      var k :| 0 <= k < |s| && s[k] == n - 1;
      var rest := s[..k] + s[k + 1..];
      forall q | 0 <= q < n - 1 ensures q in rest {
        assert q in s;
        var i :| 0 <= i < |s| && s[i] == q;
        assert rest[if i < k then i else i - 1] == q;
      }
      AtLeast(rest, n - 1);
    }
  }

  /** The lists partition the peaks: the roster names every peak exactly once. */
  lemma RosterIsPartition(labels: seq<int>)
    requires Rooted(labels)
    ensures |Roster(labels, |labels|)| == |labels|
    ensures Distinct(Roster(labels, |labels|))
    ensures forall q :: q in Roster(labels, |labels|) <==> 0 <= q < |labels|
  {
    RosterMeans(labels, |labels|);
    DistinctCovers(Roster(labels, |labels|), |labels|);
  }
}
