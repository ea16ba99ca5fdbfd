/** src/metrics.cpp: the timer definitions of a set (owner list, root list, parent and children
    links), and the doubly linked list of live sets. */
module Metrics {
  import opened Forest

  class TimerDef {
    const name: string
    const owner: MetricSet?
    var parent: TimerDef?
    var children: seq<TimerDef>

    constructor (name: string, owner: MetricSet?)
      ensures this.name == name && this.owner == owner && parent == null && children == []
    {
      this.name, this.owner, parent, children := name, owner, null, [];
    }
  }

  /** The definitions with these indexes. */
  function Picked(defs: seq<TimerDef>, c: seq<int>): (p: seq<TimerDef>)
    requires InRange(c, |defs|)
    ensures |p| == |c|
  {
    seq(|c|, i requires 0 <= i < |c| => defs[c[i]])
  }

  /** The links of the definitions, one after the other. */
  ghost function ParentLinks(defs: seq<TimerDef>): seq<TimerDef?>
    reads defs
  {
    seq(|defs|, i requires 0 <= i < |defs| reads defs => defs[i].parent)
  }

  ghost function ChildLinks(defs: seq<TimerDef>): seq<seq<TimerDef>>
    reads defs
  {
    seq(|defs|, i requires 0 <= i < |defs| reads defs => defs[i].children)
  }

  /** The three structures describe one forest: the one with these parent indexes. */
  ghost predicate Describes(parents: seq<int>, defs: seq<TimerDef>, roots: seq<TimerDef>,
                            up: seq<TimerDef?>, down: seq<seq<TimerDef>>)
  {
    && Grown(parents) && |parents| == |defs| == |up| == |down|
    && roots == Picked(defs, Children(parents, -1))
    && (forall i | 0 <= i < |defs| :: up[i] == if parents[i] == -1 then null else defs[parents[i]])
    && (forall i | 0 <= i < |defs| :: down[i] == Picked(defs, Children(parents, i)))
  }

  /** The children of node `j` after a new one. */
  lemma PickedChildren(parents: seq<int>, defs: seq<TimerDef>, k: int, def: TimerDef, j: int)
    requires Grown(parents) && |parents| == |defs| && -1 <= k < |defs| && -1 <= j <= |defs|
    ensures Grown(parents + [k])
    ensures Picked(defs + [def], Children(parents + [k], j)) ==
      (if j == |defs| then [] else Picked(defs, Children(parents, j))) + if j == k then [def] else []
  {
    hide Children, Picked;
    ChildrenGrow(parents, k, j);
    NoneBelow(parents, |parents|);
    PickedMore(defs, Children(parents, j), def, j == k);
    PickedNone(defs);
  }

  lemma PickedMore(defs: seq<TimerDef>, c: seq<int>, def: TimerDef, more: bool)
    requires InRange(c, |defs|)
    ensures var c' := c + if more then [|defs|] else [];
      InRange(c', |defs + [def]|) && Picked(defs + [def], c') == Picked(defs, c) + if more then [def] else []
  {
  }

  /** A new last child keeps the three structures in step. */
  lemma DescribesMore(parents: seq<int>, defs: seq<TimerDef>, roots: seq<TimerDef>,
                      up: seq<TimerDef?>, down: seq<seq<TimerDef>>, k: int, def: TimerDef)
    requires Describes(parents, defs, roots, up, down) && -1 <= k < |defs|
    ensures Describes(parents + [k], defs + [def], if k == -1 then roots + [def] else roots,
                      up + [if k == -1 then null else defs[k]],
                      (if k == -1 then down else down[k := down[k] + [def]]) + [[]])
  {
    hide Children, Picked;
    var down' := (if k == -1 then down else down[k := down[k] + [def]]) + [[]];
    PickedChildren(parents, defs, k, def, -1);
    assert roots + [] == roots;
    forall i | 0 <= i <= |defs|
      ensures down'[i] == Picked(defs + [def], Children(parents + [k], i))
    {
      PickedChildren(parents, defs, k, def, i);
      assert i < |defs| ==> down[i] + [] == down[i];
    }
  }

  class MetricSet {
    var allTimerDefs: seq<TimerDef>
    var rootTimerDefs: seq<TimerDef>
    /** The index of each definition's parent; -1 for a root. */
    ghost var parents: seq<int>
    /** The list of live sets. */
    var next: MetricSet?
    var prev: MetricSet?

    ghost predicate Valid()
      reads this, allTimerDefs
    {
      && Describes(parents, allTimerDefs, rootTimerDefs, ParentLinks(allTimerDefs), ChildLinks(allTimerDefs))
      && (forall i, j | 0 <= i < j < |allTimerDefs| :: allTimerDefs[i] != allTimerDefs[j])
      && (forall i | 0 <= i < |allTimerDefs| :: allTimerDefs[i].owner == this)
    }

    constructor ()
      ensures Valid() && allTimerDefs == [] && parents == [] && next == null && prev == null
    {
      allTimerDefs, rootTimerDefs, parents := [], [], [];
      next, prev := null, null;
    }

    /** `CreateTimerDef2` for a set. The new definition becomes the last child of its parent. */
    method Add(name: string, parent: TimerDef?, ghost k: int) returns (def: TimerDef)
      requires Valid() && -1 <= k < |allTimerDefs|
      requires if k == -1 then parent == null else parent == allTimerDefs[k]
      modifies this`allTimerDefs, this`rootTimerDefs, this`parents, if parent == null then {} else {parent}
      ensures Valid() && fresh(def) && def.name == name && def.owner == this && def.children == []
      ensures parent != null ==> def.parent == parent && parent.children == old(parent.children) + [def]
      ensures parent == null ==> def.parent == null && rootTimerDefs == old(rootTimerDefs) + [def]
      ensures allTimerDefs == old(allTimerDefs) + [def] && parents == old(parents) + [k]
    {
      hide Describes;
      ghost var defs, up, down := allTimerDefs, ParentLinks(allTimerDefs), ChildLinks(allTimerDefs);
      DescribesMatches(parents, defs, rootTimerDefs, up, down);
      def := new TimerDef(name, this);
      DescribesMore(parents, defs, rootTimerDefs, up, down, k, def);
      if parent == null {
        rootTimerDefs := rootTimerDefs + [def];
      } else {
        def.parent := parent;
        parent.children := parent.children + [def];
      }
      allTimerDefs := allTimerDefs + [def];
      parents := parents + [k];
      assert ParentLinks(allTimerDefs) == up + [if k == -1 then null else defs[k]];
      assert ChildLinks(allTimerDefs) == (if k == -1 then down else down[k := down[k] + [def]]) + [[]];
    }
  }

  lemma DescribesMatches(parents: seq<int>, defs: seq<TimerDef>, roots: seq<TimerDef>,
                         up: seq<TimerDef?>, down: seq<seq<TimerDef>>)
    requires Describes(parents, defs, roots, up, down)
    ensures |parents| == |defs| == |up| == |down| && Grown(parents)
  {
  }

  predicate InRange(c: seq<int>, n: nat) {
    forall i | 0 <= i < |c| :: 0 <= c[i] < n
  }

  function Others(c: seq<int>, k: nat): (rest: seq<int>)
    requires k < |c|
    ensures |rest| == |c| - 1
  {
    c[..k] + c[k + 1..]
  }

  lemma PickedOthers(defs: seq<TimerDef>, c: seq<int>, k: nat)
    requires InRange(c, |defs|) && k < |c|
    ensures InRange(Others(c, k), |defs|)
    ensures multiset(c) == multiset(Others(c, k)) + multiset{c[k]}
    ensures multiset(Picked(defs, c)) == multiset(Picked(defs, Others(c, k))) + multiset{defs[c[k]]}
  {
    assert c == c[..k] + [c[k]] + c[k + 1..];
    assert Picked(defs, c) == Picked(defs, c[..k]) + [defs[c[k]]] + Picked(defs, c[k + 1..]);
    assert Picked(defs, Others(c, k)) == Picked(defs, c[..k]) + Picked(defs, c[k + 1..]);
  }

  lemma SameRest(m: multiset<int>, n: multiset<int>, x: multiset<int>)
    requires m + x == n + x
    ensures m == n
  {
    assert m == (m + x) - x;
  }

  lemma IndexIn(a: seq<int>, b: seq<int>) returns (k: nat)
    requires a != [] && multiset(a) == multiset(b)
    ensures k < |b| && b[k] == a[0]
  {
    assert a[0] in multiset(a) && a[0] in b;
    k :| 0 <= k < |b| && b[k] == a[0];
  }

  lemma {:induction false} PickedPermutation(defs: seq<TimerDef>, a: seq<int>, b: seq<int>)
    requires InRange(a, |defs|) && InRange(b, |defs|) && multiset(a) == multiset(b)
    ensures multiset(Picked(defs, a)) == multiset(Picked(defs, b))
    decreases |a|
  {
    if a == [] {
      assert |b| == |multiset(b)| == 0;
    } else {
      var k := IndexIn(a, b);
      hide Picked, InRange, Others;
      PickedOthers(defs, a, 0);
      PickedOthers(defs, b, k);
      SameRest(multiset(Others(a, 0)), multiset(Others(b, k)), multiset{a[0]});
      PickedPermutation(defs, Others(a, 0), Others(b, k));
    }
  }

  /** The walk over indexes finds every definition of the owner list exactly once. */
  lemma WalkFindsAll(parents: seq<int>, defs: seq<TimerDef>)
    requires Grown(parents) && |parents| == |defs|
    ensures InRange(Walk(parents), |defs|)
    ensures multiset(Picked(defs, Walk(parents))) == multiset(defs)
  {
    var walk := Walk(parents);
    WalkVisitsEachOnce(parents);
    assert forall i | 0 <= i < |walk| :: walk[i] in walk;
    PickedPermutation(defs, walk, Indexes(|defs|));
    assert Picked(defs, Indexes(|defs|)) == defs;
  }

  lemma PickedAt(defs: seq<TimerDef>, c: seq<int>, i: nat)
    requires InRange(c, |defs|) && i < |c|
    ensures Picked(defs, c)[i] == defs[c[i]]
  {
  }

  lemma PickedNone(defs: seq<TimerDef>)
    ensures Picked(defs, []) == []
  {
  }

  lemma ChildrenAre(s: MetricSet, i: int)
    requires s.Valid() && -1 <= i < |s.allTimerDefs|
    ensures Grown(s.parents) && |s.parents| == |s.allTimerDefs| && InRange(Children(s.parents, i), |s.allTimerDefs|)
    ensures (if i == -1 then s.rootTimerDefs else s.allTimerDefs[i].children) ==
      Picked(s.allTimerDefs, Children(s.parents, i))
  {
    hide Children, Picked;
    assert i >= 0 ==> ChildLinks(s.allTimerDefs)[i] == s.allTimerDefs[i].children;
  }

  lemma PickedAppend(defs: seq<TimerDef>, a: seq<int>, b: seq<int>)
    requires InRange(a, |defs|) && InRange(b, |defs|)
    ensures Picked(defs, a + b) == Picked(defs, a) + Picked(defs, b)
  {
  }

  /** One more top definition `i` and all below it. */
  lemma WalkStep(defs: seq<TimerDef>, parents: seq<int>, c: seq<int>, above: int, i: int,
                 found: seq<TimerDef>, below: seq<TimerDef>)
    requires Grown(parents) && |parents| == |defs| && -1 <= above < i < |defs|
    requires forall k | 0 <= k < |c| :: above < c[k] < |defs|
    requires var all := VisitAll(parents, c, above); InRange(all, |defs|) && found == Picked(defs, all)
    requires var all := VisitAll(parents, Children(parents, i), i); InRange(all, |defs|) && below == Picked(defs, all)
    ensures var all := VisitAll(parents, c + [i], above);
      InRange(all, |defs|) && found + ([defs[i]] + below) == Picked(defs, all)
  {
    hide VisitAll, Visit, Children;
    VisitIs(parents, i);
    PickedAppend(defs, [i], VisitAll(parents, Children(parents, i), i));
    VisitAllAppend(parents, c, i, above);
    PickedAppend(defs, VisitAll(parents, c, above), Visit(parents, i));
  }

  /** Down from each of these definitions in turn, along the `children` fields. The indexes `c` of the
      definitions, all above `above`, only say what is found, and that the walk ends. */
  method WalkDown(s: MetricSet, tops: seq<TimerDef>, ghost c: seq<int>, ghost above: int) returns (found: seq<TimerDef>)
    requires s.Valid() && -1 <= above < |s.parents|
    requires forall i | 0 <= i < |c| :: above < c[i] < |s.parents|
    requires InRange(c, |s.allTimerDefs|) && tops == Picked(s.allTimerDefs, c)
    ensures var all := VisitAll(s.parents, c, above);
      InRange(all, |s.allTimerDefs|) && found == Picked(s.allTimerDefs, all)
    decreases |s.parents| - above
  {
    hide VisitAll, Visit, Children, Describes, Picked, Grown;
    ghost var defs, parents := s.allTimerDefs, s.parents;
    ChildrenAre(s, -1);
    PickedNone(defs);
    VisitNone(parents, above);
    found := [];
    for i := 0 to |tops|
      invariant InRange(VisitAll(parents, c[..i], above), |defs|)
      invariant found == Picked(defs, VisitAll(parents, c[..i], above))
    {
      ChildrenAre(s, c[i]);
      PickedAt(defs, c, i);
      var below := WalkDown(s, tops[i].children, Children(parents, c[i]), c[i]);
      WalkStep(defs, parents, c[..i], above, c[i], found, below);
      assert c[..i + 1] == c[..i] + [c[i]];
      found := found + ([tops[i]] + below);
    }
    assert c[..|c|] == c;
  }

  /** The walk from the root list through the children finds every definition of the set exactly
      once. */
  method WalkRoots(s: MetricSet) returns (found: seq<TimerDef>)
    requires s.Valid()
    ensures multiset(found) == multiset(s.allTimerDefs)
  {
    hide Children, VisitAll, Describes;
    ChildrenAre(s, -1);
    found := WalkDown(s, s.rootTimerDefs, Children(s.parents, -1), -1);
    if s.parents == [] {
      NoChildren();
      VisitNone([], -1);
    }
    WalkFindsAll(s.parents, s.allTimerDefs);
  }

  // ----- the list of live sets -----

  /** A doubly linked list of just these sets, in this order. */
  ghost predicate Chain(sets: seq<MetricSet>, head: MetricSet?)
    reads sets
  {
    && (forall i, j | 0 <= i < j < |sets| :: sets[i] != sets[j])
    && head == (if sets == [] then null else sets[0])
    && (forall i {:trigger sets[i].next} | 0 <= i < |sets| ::
          sets[i].next == if i + 1 == |sets| then null else sets[i + 1])
    && (forall i {:trigger sets[i].prev} | 0 <= i < |sets| ::
          sets[i].prev == if i == 0 then null else sets[i - 1])
  }

  /** The list with set `k` left out: its neighbours point at each other. */
  ghost predicate Bypassed(sets: seq<MetricSet>, head: MetricSet?, k: nat)
    requires k < |sets|
    reads sets
  {
    var n := |sets|;
    && (forall i, j | 0 <= i < j < n :: sets[i] != sets[j])
    && head == (if k > 0 then sets[0] else if n > 1 then sets[1] else null)
    && (forall i {:trigger sets[i].next} | 0 <= i < n && i != k ::
          var j := if i + 1 == k then k + 1 else i + 1;
          sets[i].next == if j == n then null else sets[j])
    && (forall i {:trigger sets[i].prev} | 0 <= i < n && i != k ::
          var j := if i == k + 1 then k - 1 else i - 1;
          sets[i].prev == if j == -1 then null else sets[j])
  }

  lemma BypassedLinks(sets: seq<MetricSet>, head: MetricSet?, k: nat, i: nat)
    requires k < |sets| && Bypassed(sets, head, k) && i < |sets| - 1
    ensures var rest := sets[..k] + sets[k + 1..];
      && rest[i].next == (if i + 1 == |rest| then null else rest[i + 1])
      && rest[i].prev == if i == 0 then null else rest[i - 1]
  {
    assert (sets[..k] + sets[k + 1..])[i] == sets[if i < k then i else i + 1];
  }

  lemma BypassedIsChain(sets: seq<MetricSet>, head: MetricSet?, k: nat)
    requires k < |sets| && Bypassed(sets, head, k)
    ensures Chain(sets[..k] + sets[k + 1..], head)
  {
    var rest := sets[..k] + sets[k + 1..];
    assert forall i, j | 0 <= i < j < |rest| :: rest[i] != rest[j];
    assert head == if rest == [] then null else rest[0];
    hide Bypassed;
    forall i | 0 <= i < |rest|
      ensures rest[i].next == (if i + 1 == |rest| then null else rest[i + 1])
      ensures rest[i].prev == if i == 0 then null else rest[i - 1]
    {
      BypassedLinks(sets, head, k, i);
    }
  }

  class MetricsGlobals {
    var head: MetricSet?
    var dummyTimerDef: TimerDef?
    /** The live sets, the newest first. */
    ghost var sets: seq<MetricSet>

    ghost predicate Linked()
      reads this, sets
    {
      Chain(sets, head)
    }

    constructor ()
      ensures Linked() && sets == [] && dummyTimerDef == null
    {
      head, dummyTimerDef, sets := null, null, [];
    }

    /** The assertions of `CheckLockedList` hold at every set, and its loop ends. */
    method CheckLockedList()
      requires Linked()
    {
      var metricSet := head;
      ghost var i := 0;
      while metricSet != null
        invariant i <= |sets| && metricSet == if i == |sets| then null else sets[i]
        decreases |sets| - i
      {
        if metricSet.prev != null {
          assert metricSet.prev.next == metricSet;
        } else {
          assert metricSet == head;
        }
        if metricSet.next != null {
          assert metricSet.next.prev == metricSet;
        }
        metricSet := metricSet.next;
        i := i + 1;
      }
    }

    method LinkIntoLockedList(metricSet: MetricSet)
      requires Linked() && metricSet !in sets && metricSet.next == null && metricSet.prev == null
      modifies this`head, this`sets, metricSet`next, sets`prev
      ensures Linked() && sets == [metricSet] + old(sets)
    {
      metricSet.next := head;
      if metricSet.next != null {
        assert metricSet.next.prev == null;
        metricSet.next.prev := metricSet;
      }
      head := metricSet;
      sets := [metricSet] + sets;
      CheckLockedList();
    }

    method Bypass(metricSet: MetricSet, ghost k: nat)
      requires Linked() && k < |sets| && sets[k] == metricSet
      modifies this`head, sets`next, sets`prev
      ensures Bypassed(sets, head, k) && metricSet.next == null && metricSet.prev == null
    {
      assert metricSet.prev == (if k == 0 then null else sets[k - 1]);
      assert metricSet.next == (if k + 1 == |sets| then null else sets[k + 1]);
      if metricSet.prev != null {
        metricSet.prev.next := metricSet.next;
        assert head != metricSet;
      } else {
        assert head == metricSet;
        head := metricSet.next;
      }
      if metricSet.next != null {
        metricSet.next.prev := metricSet.prev;
      }
      metricSet.next := null;
      metricSet.prev := null;
    }

    /** `~MetricSet`; `k` is where the set stands in the list. */
    method Unlink(metricSet: MetricSet, ghost k: nat)
      requires Linked() && k < |sets| && sets[k] == metricSet
      modifies this`head, this`sets, sets`next, sets`prev
      ensures Linked() && sets == old(sets)[..k] + old(sets)[k + 1..]
      ensures metricSet.next == null && metricSet.prev == null
    {
      hide Chain, Bypassed;
      Bypass(metricSet, k);
      BypassedIsChain(sets, head, k);
      sets := sets[..k] + sets[k + 1..];
      CheckLockedList();
    }

    method GetAll() returns (all: seq<MetricSet>)
      requires Linked()
      ensures all == sets
    {
      all := [];
      var metricSet := head;
      ghost var i := 0;
      while metricSet != null
        invariant i <= |sets| && metricSet == (if i == |sets| then null else sets[i]) && all == sets[..i]
        decreases |sets| - i
      {
        all := all + [metricSet];
        metricSet := metricSet.next;
        i := i + 1;
      }
    }

    /** `CreateTimerDef2`: without a set, the one dummy definition, which is in no list. `k` is the
        index of the parent in the set's owner list. */
    method CreateTimerDef(metricSet: MetricSet?, name: string, parent: TimerDef?, ghost k: int) returns (def: TimerDef)
      requires metricSet != null ==> metricSet.Valid() && -1 <= k < |metricSet.allTimerDefs|
      requires metricSet != null ==> if k == -1 then parent == null else parent == metricSet.allTimerDefs[k]
      requires dummyTimerDef != null ==> dummyTimerDef.owner == null
      modifies this`dummyTimerDef
      modifies if metricSet == null then {} else {metricSet}
      modifies if metricSet == null || parent == null then {} else {parent}
      ensures metricSet == null ==> dummyTimerDef == def && def.owner == null
      ensures metricSet == null && old(dummyTimerDef) != null ==> def == old(dummyTimerDef)
      ensures metricSet == null && old(dummyTimerDef) == null ==> fresh(def) && def.name == "dummy TimerDef"
      ensures metricSet != null ==> def.name == name && def.owner == metricSet && def.children == []
      ensures metricSet != null ==> metricSet.Valid() && fresh(def) && dummyTimerDef == old(dummyTimerDef)
      ensures metricSet != null ==> metricSet.allTimerDefs == old(metricSet.allTimerDefs) + [def]
      ensures metricSet != null ==> metricSet.parents == old(metricSet.parents) + [k]
    {
      if metricSet == null {
        if dummyTimerDef == null {
          dummyTimerDef := new TimerDef("dummy TimerDef", null);
        }
        def := dummyTimerDef;
      } else {
        def := metricSet.Add(name, parent, k);
      }
    }
  }
}
