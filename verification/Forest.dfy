/** A forest that grows by new leaves and new roots, given by the parent of each node in the order
    of creation; -1 stands for no parent. The shape of the timer definitions of src/metrics.cpp. */
module Forest {

  /** Every parent was created before its children. */
  predicate Grown(parents: seq<int>) {
    forall i | 0 <= i < |parents| :: -1 <= parents[i] < i
  }

  /** The children of `k`, or the roots for -1, in the order of creation. */
  function Children(parents: seq<int>, k: int): (c: seq<int>)
    requires Grown(parents)
    ensures forall i | 0 <= i < |c| :: 0 <= c[i] < |parents| && parents[c[i]] == k && k < c[i]
    ensures forall i, j | 0 <= i < j < |c| :: c[i] < c[j]
  {
    if parents == [] then []
    else
      var n := |parents| - 1;
      Children(parents[..n], k) + if parents[n] == k then [n] else []
  }

  /** A walk down from `i`: the node, then its children in order, each with all below it. */
  function Visit(parents: seq<int>, i: int): (s: seq<int>)
    requires Grown(parents) && 0 <= i < |parents|
    ensures forall x | x in s :: i <= x < |parents|
    decreases |parents| - i, 1, 0
  {
    [i] + VisitAll(parents, Children(parents, i), i)
  }

  function VisitAll(parents: seq<int>, c: seq<int>, above: int): (s: seq<int>)
    requires Grown(parents) && -1 <= above < |parents| && forall i | 0 <= i < |c| :: above < c[i] < |parents|
    ensures forall x | x in s :: above < x < |parents|
    decreases |parents| - above, 0, |c|
  {
    if c == [] then [] else VisitAll(parents, c[..|c| - 1], above) + Visit(parents, c[|c| - 1])
  }

  /** The walk from the roots. */
  function Walk(parents: seq<int>): seq<int>
    requires Grown(parents)
  {
    if parents == [] then [] else VisitAll(parents, Children(parents, -1), -1)
  }

  function Indexes(n: nat): (s: seq<int>)
    ensures |s| == n && forall i | 0 <= i < n :: s[i] == i
  {
    seq(n, i => i)
  }

  lemma {:induction false} IndexOnce(n: nat, k: int)
    ensures multiset(Indexes(n))[k] == if 0 <= k < n then 1 else 0
  {
    if n > 0 {
      IndexOnce(n - 1, k);
      assert Indexes(n) == Indexes(n - 1) + [n - 1];
    }
  }

  /** The walk over `was`, with the new node `n` beside each visit to its parent `k`. */
  predicate Adds(now: multiset<int>, was: multiset<int>, n: int, k: int) {
    now == was[n := was[k]]
  }

  lemma ChildrenGrow(parents: seq<int>, k: int, j: int)
    requires Grown(parents) && -1 <= k < |parents|
    ensures Grown(parents + [k])
    ensures Children(parents + [k], j) == Children(parents, j) + if j == k then [|parents|] else []
  {
    assert (parents + [k])[..|parents|] == parents;
  }

  lemma {:induction false} NoneBelow(parents: seq<int>, k: int)
    requires Grown(parents) && |parents| <= k
    ensures Children(parents, k) == []
  {
    if parents != [] {
      NoneBelow(parents[..|parents| - 1], k);
    }
  }

  lemma {:induction false} NewIsLeaf(parents: seq<int>, k: int)
    requires Grown(parents) && -1 <= k < |parents|
    ensures Grown(parents + [k]) && Visit(parents + [k], |parents|) == [|parents|]
  {
    ChildrenGrow(parents, k, |parents|);
    NoneBelow(parents, |parents|);
  }

  lemma VisitUnfolds(parents: seq<int>, k: int, i: int)
    requires Grown(parents) && -1 <= k < |parents| && 0 <= i < |parents| && Grown(parents + [k])
    ensures var below := VisitAll(parents + [k], Children(parents, i), i);
      Visit(parents + [k], i) == [i] + below + if i == k then [|parents|] else []
  {
    hide Visit, VisitAll, Children;
    var now, c, n := parents + [k], Children(parents, i), |parents|;
    ChildrenGrow(parents, k, i);
    VisitIs(now, i);
    if i == k {
      NewIsLeaf(parents, k);
      VisitAllAppend(now, c, n, i);
    } else {
      assert c + [] == c;
    }
  }

  lemma VisitIs(parents: seq<int>, i: int)
    requires Grown(parents) && 0 <= i < |parents|
    ensures Visit(parents, i) == [i] + VisitAll(parents, Children(parents, i), i)
  {
  }

  lemma VisitAllAppend(parents: seq<int>, c: seq<int>, n: int, above: int)
    requires Grown(parents) && -1 <= above < n < |parents| && forall i | 0 <= i < |c| :: above < c[i] < |parents|
    ensures VisitAll(parents, c + [n], above) == VisitAll(parents, c, above) + Visit(parents, n)
  {
    assert (c + [n])[..|c|] == c;
  }

  lemma {:induction false} VisitGrows(parents: seq<int>, k: int, i: int)
    requires Grown(parents) && -1 <= k < |parents| && 0 <= i < |parents| && Grown(parents + [k])
    ensures Adds(multiset(Visit(parents + [k], i)), multiset(Visit(parents, i)), |parents|, k)
    decreases |parents| - i, 1, 0
  {
    hide Visit, VisitAll, Children, Grown;
    var n, c := |parents|, Children(parents, i);
    VisitAllGrows(parents, k, c, i);
    VisitUnfolds(parents, k, i);
    VisitIs(parents, i);
    var all, was := VisitAll(parents + [k], c, i), VisitAll(parents, c, i);
    assert n !in was;
    AddBeside(multiset(was), i, n, k);
    assert multiset(Visit(parents, i)) == multiset{i} + multiset(was);
    assert multiset([i] + all + if i == k then [n] else []) ==
           multiset{i} + multiset(all) + if i == k then multiset{n} else multiset{};
  }

  lemma AddBeside(was: multiset<int>, i: int, n: int, k: int)
    requires was[n] == 0 && i != n && k != n
    ensures Adds(multiset{i} + was[n := was[k]] + (if i == k then multiset{n} else multiset{}), multiset{i} + was, n, k)
  {
  }

  lemma {:induction false} VisitAllGrows(parents: seq<int>, k: int, c: seq<int>, above: int)
    requires Grown(parents) && -1 <= k < |parents| && Grown(parents + [k])
    requires -1 <= above < |parents| && forall i | 0 <= i < |c| :: above < c[i] < |parents|
    ensures Adds(multiset(VisitAll(parents + [k], c, above)), multiset(VisitAll(parents, c, above)), |parents|, k)
    decreases |parents| - above, 0, |c|
  {
    hide Visit, VisitAll, Adds;
    VisitNone(parents, above);
    VisitNone(parents + [k], above);
    if c == [] {
      AddNone(|parents|, k);
    } else {
      var some, last := c[..|c| - 1], c[|c| - 1];
      assert c == some + [last];
      VisitAllGrows(parents, k, some, above);
      VisitGrows(parents, k, last);
      VisitAllAppend(parents, some, last, above);
      VisitAllAppend(parents + [k], some, last, above);
      AddBoth(multiset(VisitAll(parents + [k], some, above)), multiset(VisitAll(parents, some, above)),
              multiset(Visit(parents + [k], last)), multiset(Visit(parents, last)), |parents|, k);
    }
  }

  lemma AddNone(n: int, k: int)
    ensures Adds(multiset{}, multiset{}, n, k)
  {
  }

  lemma AddBoth(a: multiset<int>, b: multiset<int>, c: multiset<int>, d: multiset<int>, n: int, k: int)
    requires Adds(a, b, n, k) && Adds(c, d, n, k)
    ensures Adds(a + c, b + d, n, k)
  {
  }

  lemma WalkIs(parents: seq<int>, k: int)
    requires Grown(parents) && -1 <= k < |parents|
    ensures Grown(parents + [k])
    ensures Walk(parents + [k]) ==
      (if parents == [] then [] else VisitAll(parents + [k], Children(parents, -1), -1)) +
      if k == -1 then [|parents|] else []
  {
    hide Visit, VisitAll, Children;
    var now, c, n := parents + [k], Children(parents, -1), |parents|;
    ChildrenGrow(parents, k, -1);
    if parents == [] {
      NoChildren();
      VisitNone(now, -1);
    }
    if k == -1 {
      NewIsLeaf(parents, k);
      VisitAllAppend(now, c, n, -1);
    } else {
      assert c + [] == c;
    }
  }

  lemma NoChildren()
    ensures Children([], -1) == []
  {
  }

  lemma VisitNone(parents: seq<int>, above: int)
    requires Grown(parents) && -1 <= above < |parents|
    ensures VisitAll(parents, [], above) == []
  {
  }

  /** The walk from the roots visits every node exactly once. */
  lemma {:induction false} WalkVisitsEachOnce(parents: seq<int>)
    requires Grown(parents)
    ensures multiset(Walk(parents)) == multiset(Indexes(|parents|))
  {
    if parents != [] {
      hide Visit, VisitAll, Children, Indexes, Adds;
      var n := |parents| - 1;
      var before, k := parents[..n], parents[n];
      assert parents == before + [k];
      WalkVisitsEachOnce(before);
      WalkIs(before, k);
      IndexOnce(n, k);
      IndexOnce(n, n);
      IndexesGrow(n);
      var was := multiset(Walk(before));
      var all := if n == 0 then [] else VisitAll(parents, Children(before, -1), -1);
      if n > 0 {
        VisitAllGrows(before, k, Children(before, -1), -1);
      }
      assert n == 0 ==> was == multiset{};
      AddOnce(multiset(all), was, n, k);
    }
  }

  lemma IndexesGrow(n: nat)
    ensures Indexes(n + 1) == Indexes(n) + [n] && Indexes(0) == []
  {
  }

  lemma AddOnce(now: multiset<int>, was: multiset<int>, n: int, k: int)
    requires -1 <= k < n && was[n] == 0 && was[k] == if 0 <= k < n then 1 else 0
    requires if n == 0 then now == was == multiset{} else Adds(now, was, n, k)
    ensures now + (if k == -1 then multiset{n} else multiset{}) == was + multiset{n}
  {
  }
}
