/** src/mutex.cpp: the circular doubly linked list of live mutexes, and the cached snapshot of it
    guarded by change counters. */
module MutexRegistry {

  const TWO64: nat := 0x1_0000_0000_0000_0000

  class Node {
    var next: Node
    var prev: Node
    var live: bool

    constructor ()
      ensures next == this && prev == this && live
    {
      next, prev, live := this, this, true;
    }
  }

  /** The index after `i` in a circle of `n`. */
  function After(i: nat, n: nat): (j: nat)
    requires i < n
    ensures j < n
  {
    if i + 1 == n then 0 else i + 1
  }

  function Before(i: nat, n: nat): (j: nat)
    requires i < n
    ensures j < n && After(j, n) == i
  {
    if i == 0 then n - 1 else i - 1
  }

  /** A well-formed circular doubly linked list of just these nodes, in this order. */
  ghost predicate Circle(nodes: seq<Node>)
    reads nodes
  {
    && (forall i, j | 0 <= i < j < |nodes| :: nodes[i] != nodes[j])
    && (forall i {:trigger nodes[i].next} | 0 <= i < |nodes| :: nodes[i].next == nodes[After(i, |nodes|)])
    && (forall i {:trigger nodes[i].prev} | 0 <= i < |nodes| :: nodes[i].prev == nodes[Before(i, |nodes|)])
  }

  /** The circle without its node `k`: its neighbours point at each other instead. */
  ghost predicate Bypassed(nodes: seq<Node>, k: nat)
    requires k < |nodes|
    reads nodes
  {
    var n := |nodes|;
    && (forall i, j | 0 <= i < j < |nodes| :: nodes[i] != nodes[j])
    && (forall i {:trigger nodes[i].next} | 0 <= i < n && i != k ::
          nodes[i].next == nodes[if i == Before(k, n) then After(k, n) else After(i, n)])
    && (forall i {:trigger nodes[i].prev} | 0 <= i < n && i != k ::
          nodes[i].prev == nodes[if i == After(k, n) then Before(k, n) else Before(i, n)])
  }

  lemma OthersDiffer(nodes: seq<Node>, k: nat)
    requires k < |nodes| && Circle(nodes)
    ensures forall i | 0 <= i < |nodes| && i != k :: nodes[i] != nodes[k]
  {
  }

  lemma BypassedNext(nodes: seq<Node>, k: nat, i: nat)
    requires k < |nodes| && Bypassed(nodes, k) && i < |nodes| - 1
    ensures var rest := nodes[..k] + nodes[k + 1..]; rest[i].next == rest[After(i, |rest|)]
  {
    assert (nodes[..k] + nodes[k + 1..])[i] == nodes[if i < k then i else i + 1];
  }

  lemma BypassedPrev(nodes: seq<Node>, k: nat, i: nat)
    requires k < |nodes| && Bypassed(nodes, k) && i < |nodes| - 1
    ensures var rest := nodes[..k] + nodes[k + 1..]; rest[i].prev == rest[Before(i, |rest|)]
  {
    assert (nodes[..k] + nodes[k + 1..])[i] == nodes[if i < k then i else i + 1];
  }

  lemma BypassedIsCircle(nodes: seq<Node>, k: nat)
    requires k < |nodes| && Bypassed(nodes, k)
    ensures Circle(nodes[..k] + nodes[k + 1..])
  {
    var rest := nodes[..k] + nodes[k + 1..];
    assert forall i, j | 0 <= i < j < |rest| :: rest[i] != rest[j];
    hide Bypassed;
    forall i | 0 <= i < |rest|
      ensures rest[i].next == rest[After(i, |rest|)] && rest[i].prev == rest[Before(i, |rest|)]
    {
      BypassedNext(nodes, k, i);
      BypassedPrev(nodes, k, i);
    }
  }

  /** The circle opened between its last node and its first, with `m` in the gap. */
  ghost predicate Inserted(nodes: seq<Node>, m: Node)
    reads nodes, m
  {
    var n := |nodes|;
    && n > 0 && m !in nodes && m.next == nodes[0] && m.prev == nodes[n - 1]
    && (forall i, j | 0 <= i < j < n :: nodes[i] != nodes[j])
    && (forall i {:trigger nodes[i].next} | 0 <= i < n :: nodes[i].next == if i == n - 1 then m else nodes[i + 1])
    && (forall i {:trigger nodes[i].prev} | 0 <= i < n :: nodes[i].prev == if i == 0 then m else nodes[i - 1])
  }

  lemma InsertedIsCircle(nodes: seq<Node>, m: Node)
    requires Inserted(nodes, m)
    ensures Circle(nodes + [m])
  {
    var all := nodes + [m];
    forall i | 0 <= i < |all|
      ensures all[i].next == all[After(i, |all|)] && all[i].prev == all[Before(i, |all|)]
    {
      assert i < |nodes| ==> all[i] == nodes[i];
    }
  }

  // ----- the bookkeeping: what is live, what is cached, and the two counters -----

  datatype Book<T> = Book(live: seq<T>, cached: seq<T>, lastChangeCounter: nat, changeCounter: nat)

  function Start<T>(): Book<T> {
    Book([], [], 0, 1)
  }

  /** `InvalidateLockedMetadataList`, after the list has changed. */
  function Changed<T>(b: Book<T>, live: seq<T>): Book<T> {
    Book(live, [], b.lastChangeCounter, (b.changeCounter + 1) % TWO64)
  }

  function Without<T>(s: seq<T>, k: nat): seq<T>
    requires k < |s|
  {
    s[..k] + s[k + 1..]
  }

  /** `GetAllMetadata`; what it returns is then `cached`. */
  function Listed<T>(b: Book<T>): Book<T> {
    if b.lastChangeCounter != b.changeCounter then Book(b.live, b.live, b.changeCounter, b.changeCounter) else b
  }

  datatype Op<T> = Create(m: T) | Destroy(k: nat) | GetAll

  predicate Legal<T>(b: Book<T>, op: Op<T>) {
    op.Destroy? ==> op.k < |b.live|
  }

  function Step<T>(b: Book<T>, op: Op<T>): Book<T>
    requires Legal(b, op)
  {
    match op
    case Create(m) => Changed(b, b.live + [m])
    case Destroy(k) => Changed(b, Without(b.live, k))
    case GetAll => Listed(b)
  }

  predicate LegalRun<T>(ops: seq<Op<T>>)
    decreases |ops|, 0
  {
    ops == [] || (LegalRun(ops[..|ops| - 1]) && Legal(Run(ops[..|ops| - 1]), ops[|ops| - 1]))
  }

  function Run<T>(ops: seq<Op<T>>): Book<T>
    requires LegalRun(ops)
    decreases |ops|, 1
  {
    if ops == [] then Start() else Step(Run(ops[..|ops| - 1]), ops[|ops| - 1])
  }

  /** The number of constructions and destructions in a run. */
  function Changes<T>(ops: seq<Op<T>>): nat {
    if ops == [] then 0
    else Changes(ops[..|ops| - 1]) + if ops[|ops| - 1].GetAll? then 0 else 1
  }

  /** How many of them came before the cache was last filled; -1 if it never was. */
  function Refilled<T>(ops: seq<Op<T>>): (r: int)
    requires LegalRun(ops)
    ensures -1 <= r <= Changes(ops)
  {
    if ops == [] then -1
    else
      var before := ops[..|ops| - 1];
      if ops[|ops| - 1].GetAll? && Run(before).lastChangeCounter != Run(before).changeCounter then Changes(before)
      else Refilled(before)
  }

  lemma NextCounter(n: nat)
    ensures ((1 + n) % TWO64 + 1) % TWO64 == (2 + n) % TWO64
  {
  }

  /** The counters tell the number of changes modulo 2^64, and the cache is the list or empty. */
  lemma {:induction false} RunBooks<T>(ops: seq<Op<T>>)
    requires LegalRun(ops)
    ensures var b := Run(ops);
      && b.changeCounter == (1 + Changes(ops)) % TWO64
      && b.lastChangeCounter == (1 + Refilled(ops)) % TWO64
      && b.cached == if Refilled(ops) == Changes(ops) then b.live else []
  {
    if ops != [] {
      var before := ops[..|ops| - 1];
      RunBooks(before);
      NextCounter(Changes(before));
    }
  }

  lemma SameRemainder(a: nat, b: nat)
    requires a <= b
    ensures a % TWO64 == b % TWO64 <==> (b - a) % TWO64 == 0
  {
    var q, r := (b - a) / TWO64, (b - a) % TWO64;
    assert b == a + q * TWO64 + r;
    if r == 0 {
      assert b % TWO64 == a % TWO64;
    }
  }

  /** After any run, `GetAllMetadata` returns exactly the live mutexes, in the order of their
      construction, unless the number of changes since the cache was last filled is a positive
      multiple of 2^64: then it returns nothing. */
  lemma ListsLive<T>(ops: seq<Op<T>>)
    requires LegalRun(ops)
    ensures var b := Run(ops); var since := Changes(ops) - Refilled(ops);
      Listed(b).cached == b.live <==> b.live == [] || since == 0 || since % TWO64 != 0
  {
    hide Run, LegalRun, Changes, Refilled;
    RunBooks(ops);
    SameRemainder((1 + Refilled(ops)) as nat, 1 + Changes(ops));
  }

  /** The change counter is 0 exactly when the number of changes is one short of a multiple of 2^64. */
  lemma CounterIsZero<T>(ops: seq<Op<T>>)
    requires LegalRun(ops)
    ensures Run(ops).changeCounter == 0 <==> Changes(ops) % TWO64 == TWO64 - 1
  {
    hide Run, LegalRun, Changes, Refilled;
    RunBooks(ops);
    SameRemainder(0, 1 + Changes(ops));
    SameRemainder(TWO64 - 1, Changes(ops) + TWO64);
  }

  /** So up to 2^64 - 2 changes both promises hold. */
  lemma PromisesHold<T>(ops: seq<Op<T>>)
    requires LegalRun(ops) && Changes(ops) < TWO64 - 1
    ensures Run(ops).changeCounter != 0 && Listed(Run(ops)).cached == Run(ops).live
  {
    hide Run, LegalRun, Changes, Refilled, Listed;
    RunBooks(ops);
    ListsLive(ops);
  }

  // ----- a run that breaks the second promise -----

  /** `a` is made and listed; then a second mutex comes and goes `n` times. */
  function Churn(n: nat): seq<Op<int>> {
    if n == 0 then [Create(0), GetAll] else Churn(n - 1) + [Create(1)] + [Destroy(1)]
  }

  lemma RunNext<T>(ops: seq<Op<T>>, op: Op<T>)
    requires LegalRun(ops) && Legal(Run(ops), op)
    ensures LegalRun(ops + [op]) && Run(ops + [op]) == Step(Run(ops), op)
  {
    assert (ops + [op])[..|ops|] == ops;
  }

  lemma {:induction false} ChurnBooks(n: nat)
    ensures LegalRun(Churn(n))
    ensures Run(Churn(n)) == Book([0], if n == 0 then [0] else [], 2, (2 + 2 * n) % TWO64)
  {
    hide LegalRun, Run;
    if n == 0 {
      assert [Create(0)] == [] + [Create(0)] && [Create(0), GetAll] == [Create(0)] + [GetAll];
      NoOps<int>();
      RunNext<int>([], Create(0));
      RunNext<int>([Create(0)], GetAll);
    } else {
      ChurnBooks(n - 1);
      RunNext(Churn(n - 1), Create(1));
      RunNext(Churn(n - 1) + [Create(1)], Destroy(1));
      NextCounter(1 + 2 * (n - 1));
      NextCounter(2 + 2 * (n - 1));
    }
  }

  lemma NoOps<T>()
    ensures LegalRun<T>([]) && Run<T>([]) == Start()
  {
  }

  /** After 2^64 changes the counters agree by accident, and the live mutex is not listed. */
  lemma WrapAroundHidesMutex()
    ensures var ops := Churn(TWO64 / 2);
      LegalRun(ops) && Run(ops).live == [0] && Listed(Run(ops)).cached == []
  {
    ChurnBooks(TWO64 / 2);
  }

  class Registry {
    var head: Node?
    var cached: seq<Node>
    var lastChangeCounter: nat
    var changeCounter: nat

    /** The live mutexes in the order of their construction. */
    ghost var nodes: seq<Node>

    ghost predicate Linked()
      reads this, nodes
    {
      Circle(nodes) && (head == null <==> nodes == []) && (head != null ==> head == nodes[0])
    }

    ghost predicate Valid()
      reads this, nodes
    {
      Linked() && forall i | 0 <= i < |nodes| :: nodes[i].live
    }

    ghost function B(): Book<Node>
      reads this
    {
      Book(nodes, cached, lastChangeCounter, changeCounter)
    }

    constructor ()
      ensures Valid() && B() == Start()
    {
      head, cached := null, [];
      lastChangeCounter, changeCounter := 0, 1;
      nodes := [];
    }

    method InvalidateLockedMetadataList()
      modifies this`changeCounter, this`cached
      ensures B() == Changed(old(B()), nodes)
    {
      changeCounter := (changeCounter + 1) % TWO64;
      cached := [];
    }

    /** The assertions of `CheckLockedMetadataList` hold at every node, and its loop ends. */
    method CheckLockedMetadataList()
      requires Linked()
    {
      if head != null {
        var m: Node := head;
        assert m.prev.next == m;
        assert m.next.prev == m;
        m := m.next;
        ghost var i := After(0, |nodes|);
        while m != head
          invariant i < |nodes| && m == nodes[i]
          decreases if i == 0 then 0 else |nodes| - i
        {
          assert m.prev.next == m;
          assert m.next.prev == m;
          m := m.next;
          i := After(i, |nodes|);
        }
      }
    }

    /** The new node goes between the last and the first. */
    method Insert(m: Node)
      requires Linked() && nodes != [] && m !in nodes
      modifies nodes`next, nodes`prev, m`next, m`prev
      ensures Inserted(nodes, m)
    {
      assert nodes[0].prev == nodes[|nodes| - 1];
      m.prev := head.prev;
      m.next := head;
      m.prev.next := m;
      m.next.prev := m;
    }

    method LinkIn(m: Node)
      requires Linked() && m !in nodes && m.next == m && m.prev == m
      modifies this`head, this`nodes, nodes`next, nodes`prev, m`next, m`prev
      ensures Linked() && nodes == old(nodes) + [m]
    {
      if head == null {
        head := m;
      } else {
        hide Inserted;
        Insert(m);
        InsertedIsCircle(nodes, m);
      }
      nodes := nodes + [m];
    }

    /** The node's neighbours are joined. */
    method Bypass(m: Node, ghost k: nat)
      requires Circle(nodes) && k < |nodes| && nodes[k] == m
      modifies nodes`next, nodes`prev
      ensures Bypassed(nodes, k)
    {
      ghost var n := |nodes|;
      assert m.next == nodes[After(k, n)] && m.prev == nodes[Before(k, n)];
      m.next.prev := m.prev;
      m.prev.next := m.next;
    }

    method Unlink(m: Node, ghost k: nat)
      requires Linked() && k < |nodes| && nodes[k] == m
      modifies this`head, this`nodes, nodes`next, nodes`prev
      ensures Linked() && nodes == old(nodes)[..k] + old(nodes)[k + 1..]
    {
      assert m.next == nodes[After(k, |nodes|)];
      if m == head {
        head := m.next;
        if m == head {
          head := null;
        }
      }
      hide Bypassed;
      Bypass(m, k);
      BypassedIsCircle(nodes, k);
      nodes := nodes[..k] + nodes[k + 1..];
    }

    /** `Mutex::Mutex`. */
    method Create() returns (m: Node)
      requires Valid()
      modifies this, nodes
      ensures Valid() && fresh(m)
      ensures B() == Step(old(B()), Op.Create(m))
    {
      hide Circle;
      m := new Node();
      LinkIn(m);
      InvalidateLockedMetadataList();
      CheckLockedMetadataList();
    }

    /** `Mutex::~Mutex`; `k` is where the mutex stands in the order of construction. */
    method Destroy(m: Node, ghost k: nat)
      requires Valid() && k < |nodes| && nodes[k] == m
      modifies this, nodes
      ensures Valid() && !m.live
      ensures B() == Step(old(B()), Op.Destroy(k))
    {
      hide Circle;
      assert forall i | 0 <= i < |nodes| && i != k :: nodes[i] != m by {
        OthersDiffer(nodes, k);
      }
      Unlink(m, k);
      m.live := false;
      InvalidateLockedMetadataList();
      CheckLockedMetadataList();
    }

    method GetAllMetadata() returns (list: seq<Node>)
      requires Valid()
      modifies this`cached, this`lastChangeCounter
      ensures Valid() && B() == Step(old(B()), Op.GetAll) && list == cached
    {
      if lastChangeCounter != changeCounter {
        cached := [];
        if head != null {
          var m: Node := head;
          cached := cached + [m];
          m := m.next;
          ghost var i := After(0, |nodes|);
          while m != head
            invariant Linked() && head != null && i < |nodes| && m == nodes[i]
            invariant cached == if i == 0 then nodes else nodes[..i]
            decreases if i == 0 then 0 else |nodes| - i
          {
            cached := cached + [m];
            m := m.next;
            i := After(i, |nodes|);
          }
        }
        lastChangeCounter := changeCounter;
      }
      list := cached;
    }
  }

  // ----- whole runs of a registry -----

  /** A call, with mutexes named by where they stand in the order of construction. */
  datatype Call = Construct | Destruct(k: nat) | List

  function LiveCount(calls: seq<Call>): nat {
    if calls == [] then 0
    else
      var n := LiveCount(calls[..|calls| - 1]);
      match calls[|calls| - 1]
      case Construct => n + 1
      case Destruct(_) => if n == 0 then 0 else n - 1
      case List => n
  }

  /** Only live mutexes are destroyed. */
  predicate Possible(calls: seq<Call>) {
    forall i | 0 <= i < |calls| && calls[i].Destruct? :: calls[i].k < LiveCount(calls[..i])
  }

  predicate Does(call: Call, op: Op<Node>) {
    match call
    case Construct => op.Create?
    case Destruct(k) => op == Op.Destroy(k)
    case List => op.GetAll?
  }

  /** Any run of calls on the heap does what the bookkeeping says, and a listing after it returns
      exactly the live mutexes under just the condition of `ListsLive`. */
  method Replay(calls: seq<Call>) returns (live: seq<Node>, list: seq<Node>, ghost ops: seq<Op<Node>>)
    requires Possible(calls)
    ensures |ops| == |calls| && forall i | 0 <= i < |calls| :: Does(calls[i], ops[i])
    ensures LegalRun(ops) && live == Run(ops).live && |live| == LiveCount(calls)
    ensures var since := Changes(ops) - Refilled(ops);
      list == live <==> live == [] || since == 0 || since % TWO64 != 0
  {
    hide LegalRun, Run, Registry.Valid, Changes, Refilled, LiveCount;
    var r := new Registry();
    live, ops := [], [];
    NoOps<Node>();
    NoneLive();
    for i := 0 to |calls|
      invariant |ops| == i && forall j | 0 <= j < i :: Does(calls[j], ops[j])
      invariant fresh(r) && r.Valid() && live == r.nodes && fresh(live)
      invariant LegalRun(ops) && r.B() == Run(ops) && |live| == LiveCount(calls[..i])
    {
      ghost var op: Op<Node>;
      LiveNext(calls[..i], calls[i]);
      assert calls[..i + 1] == calls[..i] + [calls[i]];
      match calls[i] {
        case Construct =>
          var m := r.Create();
          live := live + [m];
          op := Op.Create(m);
        case Destruct(k) =>
          r.Destroy(live[k], k);
          live := live[..k] + live[k + 1..];
          op := Op.Destroy(k);
        case List =>
          var _ := r.GetAllMetadata();
          op := GetAll;
      }
      RunNext(ops, op);
      ops := ops + [op];
    }
    assert calls[..|calls|] == calls;
    ListsLive(ops);
    list := r.GetAllMetadata();
  }

  lemma NoneLive()
    ensures LiveCount([]) == 0
  {
  }

  lemma LiveNext(calls: seq<Call>, call: Call)
    ensures LiveCount(calls + [call]) ==
      match call
      case Construct => LiveCount(calls) + 1
      case Destruct(_) => if LiveCount(calls) == 0 then 0 else LiveCount(calls) - 1
      case List => LiveCount(calls)
  {
    assert (calls + [call])[..|calls|] == calls;
  }
}
