/** src/log.cpp: the indent stack of `Log`, which stores at most ten entries but counts them all. */
module IndentStack {

  const MAX_INDENT_STACK_DEPTH: nat := 10

  datatype Indents = Indents(indent: int, stack: seq<int>, depth: nat) {
    ghost predicate Valid() {
      |stack| == MAX_INDENT_STACK_DEPTH
    }
  }

  /** `Log::PushIndentInternal`. */
  function Push(s: Indents, indent: int): Indents
    requires s.Valid()
  {
    if s.depth < MAX_INDENT_STACK_DEPTH then Indents(indent, s.stack[s.depth := s.indent], s.depth + 1)
    else s.(depth := s.depth + 1)
  }

  /** `Log::PopIndent`. */
  function Pop(s: Indents): Indents
    requires s.Valid()
  {
    if s.depth == 0 then s
    else if s.depth - 1 < MAX_INDENT_STACK_DEPTH then Indents(s.stack[s.depth - 1], s.stack, s.depth - 1)
    else s.(depth := s.depth - 1)
  }

  datatype Op = PushOp(indent: int) | PopOp

  function Apply(s: Indents, op: Op): (r: Indents)
    requires s.Valid()
    ensures r.Valid()
  {
    match op
    case PushOp(indent) => Push(s, indent)
    case PopOp => Pop(s)
  }

  function Run(s: Indents, ops: seq<Op>): (r: Indents)
    requires s.Valid()
    ensures r.Valid()
    decreases |ops|
  {
    if ops == [] then s else Run(Apply(s, ops[0]), ops[1..])
  }

  // ----- the unbounded stack it stands for -----

  /** The indent in force when `pushed` is on the stack over `base`: entries beyond the tenth do
      not count. */
  function IndentFor(base: int, pushed: seq<int>): int {
    if pushed == [] then base
    else pushed[if |pushed| < 10 then |pushed| - 1 else 9]
  }

  ghost predicate Refines(s: Indents, base: int, pushed: seq<int>) {
    s.Valid() && s.depth == |pushed| && s.indent == IndentFor(base, pushed) &&
    forall i | 0 <= i < |pushed| && i < MAX_INDENT_STACK_DEPTH :: s.stack[i] == IndentFor(base, pushed[..i])
  }

  function ApplyUnbounded(pushed: seq<int>, op: Op): seq<int> {
    match op
    case PushOp(indent) => pushed + [indent]
    case PopOp => if pushed == [] then [] else pushed[..|pushed| - 1]
  }

  function RunUnbounded(pushed: seq<int>, ops: seq<Op>): seq<int>
    decreases |ops|
  {
    if ops == [] then pushed else RunUnbounded(ApplyUnbounded(pushed, ops[0]), ops[1..])
  }

  lemma ApplyRefines(s: Indents, base: int, pushed: seq<int>, op: Op)
    requires Refines(s, base, pushed)
    ensures Refines(Apply(s, op), base, ApplyUnbounded(pushed, op))
  {
    var next := ApplyUnbounded(pushed, op);
    forall i | 0 <= i < |next| && i < MAX_INDENT_STACK_DEPTH
      ensures Apply(s, op).stack[i] == IndentFor(base, next[..i])
    {
      assert next[..i] == pushed[..i];
      assert pushed[..|pushed|] == pushed;
    }
  }

  /** Every run of pushes and pops, however deep and however unbalanced, shows the indent that the
      unbounded stack holds at depth min(depth, 10). */
  lemma {:induction false} RunRefines(s: Indents, base: int, pushed: seq<int>, ops: seq<Op>)
    requires Refines(s, base, pushed)
    ensures Refines(Run(s, ops), base, RunUnbounded(pushed, ops))
    decreases |ops|
  {
    if ops != [] {
      ApplyRefines(s, base, pushed, ops[0]);
      RunRefines(Apply(s, ops[0]), base, ApplyUnbounded(pushed, ops[0]), ops[1..]);
    }
  }

  // ----- well-nested use -----

  /** A well-nested sequence: nothing, or a push, a well-nested body, its pop and what follows. */
  datatype Nest = Done | Nested(indent: int, body: Nest, rest: Nest)

  function Ops(n: Nest): seq<Op> {
    match n
    case Done => []
    case Nested(indent, body, rest) => [PushOp(indent)] + (Ops(body) + ([PopOp] + Ops(rest)))
  }

  lemma {:induction false} RunAppend(s: Indents, a: seq<Op>, b: seq<Op>)
    requires s.Valid()
    ensures Run(s, a + b) == Run(Run(s, a), b)
    decreases |a|
  {
    if a == [] {
      assert a + b == b;
    } else {
      assert (a + b)[1..] == a[1..] + b;
      RunAppend(Apply(s, a[0]), a[1..], b);
    }
  }

  /** The two states agree on all that later operations can see. */
  ghost predicate SameStack(s: Indents, t: Indents) {
    s.Valid() && t.Valid() && s.indent == t.indent && s.depth == t.depth &&
    forall i | 0 <= i < s.depth && i < MAX_INDENT_STACK_DEPTH :: s.stack[i] == t.stack[i]
  }

  lemma {:induction false} WellNestedRestores(s: Indents, n: Nest)
    requires s.Valid()
    ensures SameStack(s, Run(s, Ops(n)))
    decreases n
  {
    match n
    case Done =>
    case Nested(indent, body, rest) =>
      var ops := Ops(n);
      assert ops[0] == PushOp(indent) && ops[1..] == Ops(body) + ([PopOp] + Ops(rest));
      var inside := Push(s, indent);
      RunAppend(inside, Ops(body), [PopOp] + Ops(rest));
      WellNestedRestores(inside, body);
      var after := Run(inside, Ops(body));
      assert ([PopOp] + Ops(rest))[1..] == Ops(rest);
      WellNestedRestores(Pop(after), rest);
  }
}
