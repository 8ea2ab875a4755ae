/** The work lists of the two flood fills: a queue and a stack, each holding every open member once. */
module Worklist {

  /** The list holds exactly the members of `core` not yet in `done`, each once. */
  ghost predicate Pending(q: seq<int>, core: set<int>, done: set<int>) {
    if |q| == 0 then core == done
    else
      var j := q[|q| - 1];
      j in core && j !in done && Pending(q[..|q| - 1], core - {j}, done)
  }

  lemma {:induction false} PopPending(q: seq<int>, core: set<int>, done: set<int>)
    requires Pending(q, core, done) && |q| > 0
    ensures q[0] in core && q[0] !in done && Pending(q[1..], core, done + {q[0]})
  {
    var n := |q| - 1;
    var j := q[n];
    if n == 0 {
      assert core == done + {j} && q[1..] == [];
    } else {
      PopPending(q[..n], core - {j}, done);
      assert q[..n][1..] == q[1..][..n - 1];
      assert q[1..][n - 1] == j;
    }
  }

  /** Off the back, as a stack. */
  lemma {:induction false} PopLast(q: seq<int>, core: set<int>, done: set<int>)
    requires Pending(q, core, done) && |q| > 0
    ensures var j := q[|q| - 1]; j in core && j !in done && Pending(q[..|q| - 1], core, done + {j})
  {
    Shift(q[..|q| - 1], core - {q[|q| - 1]}, done, q[|q| - 1]);
    assert core - {q[|q| - 1]} + {q[|q| - 1]} == core;
  }

  lemma {:induction false} Shift(q: seq<int>, core: set<int>, done: set<int>, j: int)
    requires Pending(q, core, done) && j !in core
    ensures Pending(q, core + {j}, done + {j})
  {
    if |q| > 0 {
      var k := q[|q| - 1];
      Shift(q[..|q| - 1], core - {k}, done, j);
      assert core + {j} - {k} == core - {k} + {j};
    }
  }

  /** A full list names exactly its members, and there are as many entries as members. */
  lemma {:induction false} PendingLists(q: seq<int>, core: set<int>)
    requires Pending(q, core, {})
    ensures |q| == |core| && forall j :: j in q <==> j in core
  {
    if |q| > 0 {
      var j := q[|q| - 1];
      PendingLists(q[..|q| - 1], core - {j});
      assert q == q[..|q| - 1] + [j];
    }
  }
}
