/** What a command line does to the variables that options point at, and which lines are rejected,
    in terms of the line itself. */
module CommandLineLaws {
  import opened Options
  import opened CommandLine

  // ----- pointers -----

  datatype Kind = SetFlag | ResetFlag | StrArg | ListArg | IntArg | FloatArg | SizeArg | EnumArg

  function Pointer(o: OptionSpec, k: Kind): Option<Address> {
    match k
    case SetFlag => o.setIfPresent
    case ResetFlag => o.resetIfPresent
    case StrArg => o.strPtr
    case ListArg => o.strvPtr
    case IntArg => o.intPtr
    case FloatArg => o.floatPtr
    case SizeArg => o.sizePtr
    case EnumArg => if o.enumPtr.Some? then Some(o.enumPtr.value.0) else None
  }

  predicate IsFlag(k: Kind) {
    k.SetFlag? || k.ResetFlag?
  }

  /** An option takes an argument if and only if it has a pointer to store one through. */
  lemma NeedsArgumentIs(o: OptionSpec)
    ensures NeedsArgument(o) <==> exists k :: !IsFlag(k) && Pointer(o, k).Some?
  {
    assert o.strPtr.Some? ==> Pointer(o, StrArg).Some?;
    assert o.strvPtr.Some? ==> Pointer(o, ListArg).Some?;
    assert o.intPtr.Some? ==> Pointer(o, IntArg).Some?;
    assert o.floatPtr.Some? ==> Pointer(o, FloatArg).Some?;
    assert o.sizePtr.Some? ==> Pointer(o, SizeArg).Some?;
    assert o.enumPtr.Some? ==> Pointer(o, EnumArg).Some?;
  }

  /** No pointer of the option but those of these kinds points at `a`. */
  predicate Only(o: OptionSpec, ks: set<Kind>, a: Address) {
    && (o.setIfPresent == Some(a) ==> SetFlag in ks) && (o.resetIfPresent == Some(a) ==> ResetFlag in ks)
    && (o.strPtr == Some(a) ==> StrArg in ks) && (o.strvPtr == Some(a) ==> ListArg in ks)
    && (o.intPtr == Some(a) ==> IntArg in ks) && (o.floatPtr == Some(a) ==> FloatArg in ks)
    && (o.sizePtr == Some(a) ==> SizeArg in ks) && (Pointer(o, EnumArg) == Some(a) ==> EnumArg in ks)
  }

  predicate AllOnly(p: Settings, ks: set<Kind>, a: Address) {
    forall i | 0 <= i < |p.options| :: Only(p.options[i], ks, a)
  }

  function Lookup(m: Memory, a: Address): Option<Value> {
    if a in m then Some(m[a]) else None
  }

  /** The bindings are of options, and their arguments convert. */
  ghost predicate Proper(p: Settings, bs: seq<Binding>) {
    forall i | 0 <= i < |bs| ::
      bs[i].o < |p.options| && (bs[i].arg.Some? ==> Accepts(p.conversions, p.options[bs[i].o], bs[i].arg.value))
  }

  // ----- flags -----

  lemma HandledAt(o: OptionSpec, m: Memory, a: Address)
    ensures Lookup(Handled(o, m), a) ==
      if o.resetIfPresent == Some(a) then Some(BoolValue(false))
      else if o.setIfPresent == Some(a) then Some(BoolValue(true))
      else Lookup(m, a)
  {
  }

  /** What an argument leaves in a variable that takes a single one. */
  function Converted(c: Conversions, o: OptionSpec, k: Kind, arg: string): Option<Value> {
    match k
    case StrArg => Some(StringValue(arg))
    case IntArg => if c.toInt(arg).Some? then Some(NumberValue(c.toInt(arg).value)) else None
    case FloatArg => if c.toFloat(arg).Some? then Some(FloatValue(c.toFloat(arg).value)) else None
    case SizeArg => if c.toSize(arg).Some? then Some(NumberValue(c.toSize(arg).value)) else None
    case EnumArg =>
      if o.enumPtr.Some? && c.toEnum(o.enumPtr.value.1, arg).Some?
      then Some(NumberValue(c.toEnum(o.enumPtr.value.1, arg).value)) else None
    case _ => None
  }

  lemma ArguedAt(c: Conversions, o: OptionSpec, arg: string, m: Memory, a: Address, k: Kind)
    requires Only(o, {k}, a) && Accepts(c, o, arg)
    ensures Lookup(Argued(c, o, arg, m).0, a) ==
      if Pointer(o, k) != Some(a) || IsFlag(k) then Lookup(m, a)
      else if k.ListArg? then Some(ListValue(ListAt(m, a) + [arg]))
      else Converted(c, o, k, arg)
  {
  }

  lemma ArguedElsewhere(c: Conversions, o: OptionSpec, arg: string, m: Memory, a: Address)
    requires Only(o, {SetFlag, ResetFlag}, a)
    ensures Lookup(Argued(c, o, arg, m).0, a) == Lookup(m, a)
  {
  }

  /** The last binding of an option that sets or resets the flag. */
  function LastFlag(p: Settings, bs: seq<Binding>, a: Address): Option<Binding> {
    if bs == [] then None
    else
      var b := bs[|bs| - 1];
      if b.o < |p.options| && (p.options[b.o].setIfPresent == Some(a) || p.options[b.o].resetIfPresent == Some(a))
      then Some(b) else LastFlag(p, bs[..|bs| - 1], a)
  }

  /** A flag is what the last option bound that points at it makes it: false if that option resets it,
      and otherwise true. */
  lemma {:induction false} LastFlagWins(p: Settings, m: Memory, bs: seq<Binding>, a: Address)
    requires AllOnly(p, {SetFlag, ResetFlag}, a)
    ensures Lookup(BindAll(p, m, bs), a) ==
      match LastFlag(p, bs, a)
      case None => Lookup(m, a)
      case Some(b) => Some(BoolValue(b.o < |p.options| && p.options[b.o].resetIfPresent != Some(a)))
  {
    if bs != [] {
      hide Handled, Argued, Only, Lookup;
      var before, b := bs[..|bs| - 1], bs[|bs| - 1];
      LastFlagWins(p, m, before, a);
      if b.o < |p.options| {
        var o, was := p.options[b.o], BindAll(p, m, before);
        HandledAt(o, was, a);
        if b.arg.Some? {
          ArguedElsewhere(p.conversions, o, b.arg.value, Handled(o, was), a);
        }
      }
    }
  }

  predicate Bound(bs: seq<Binding>, o: nat) {
    exists i :: 0 <= i < |bs| && bs[i].o == o
  }

  lemma {:induction false} LastFlagIs(p: Settings, bs: seq<Binding>, o: nat, a: Address)
    requires o < |p.options| && (p.options[o].setIfPresent == Some(a) || p.options[o].resetIfPresent == Some(a))
    requires forall i | 0 <= i < |p.options| && i != o :: Only(p.options[i], {}, a)
    ensures LastFlag(p, bs, a).Some? <==> Bound(bs, o)
    ensures LastFlag(p, bs, a).Some? ==> LastFlag(p, bs, a).value.o == o
  {
    if bs != [] {
      var before, b := bs[..|bs| - 1], bs[|bs| - 1];
      LastFlagIs(p, before, o, a);
      assert forall i | 0 <= i < |before| :: bs[i] == before[i];
    }
  }

  /** A flag that only one option sets is true if and only if that option is bound, and otherwise as it
      was; and one that only one option resets is false if and only if that is bound. */
  lemma FlagTells(p: Settings, m: Memory, bs: seq<Binding>, o: nat, a: Address)
    requires o < |p.options| && forall i | 0 <= i < |p.options| && i != o :: Only(p.options[i], {}, a)
    ensures Only(p.options[o], {SetFlag}, a) && p.options[o].setIfPresent == Some(a) ==>
      Lookup(BindAll(p, m, bs), a) == if Bound(bs, o) then Some(BoolValue(true)) else Lookup(m, a)
    ensures Only(p.options[o], {ResetFlag}, a) && p.options[o].resetIfPresent == Some(a) ==>
      Lookup(BindAll(p, m, bs), a) == if Bound(bs, o) then Some(BoolValue(false)) else Lookup(m, a)
  {
    hide BindAll, Lookup;
    var spec := p.options[o];
    if (spec.setIfPresent == Some(a) && Only(spec, {SetFlag}, a)) ||
       (spec.resetIfPresent == Some(a) && Only(spec, {ResetFlag}, a)) {
      assert AllOnly(p, {SetFlag, ResetFlag}, a);
      LastFlagWins(p, m, bs, a);
      LastFlagIs(p, bs, o, a);
    }
  }

  // ----- arguments -----

  /** The last binding with an argument for the variable. */
  function LastTo(p: Settings, bs: seq<Binding>, k: Kind, a: Address): Option<Binding> {
    if bs == [] then None
    else
      var b := bs[|bs| - 1];
      if b.o < |p.options| && Pointer(p.options[b.o], k) == Some(a) && b.arg.Some? then Some(b)
      else LastTo(p, bs[..|bs| - 1], k, a)
  }

  lemma BindAt(p: Settings, m: Memory, b: Binding, k: Kind, a: Address)
    requires AllOnly(p, {k}, a) && !IsFlag(k) && b.o < |p.options|
    requires b.arg.Some? ==> Accepts(p.conversions, p.options[b.o], b.arg.value)
    ensures Lookup(Bind(p, m, b), a) ==
      if b.arg.None? || Pointer(p.options[b.o], k) != Some(a) then Lookup(m, a)
      else if k.ListArg? then Some(ListValue(ListAt(m, a) + [b.arg.value]))
      else Converted(p.conversions, p.options[b.o], k, b.arg.value)
  {
    hide Argued, Handled, Accepts;
    var o := p.options[b.o];
    assert Only(o, {k}, a);
    HandledAt(o, m, a);
    assert ListAt(Handled(o, m), a) == ListAt(m, a);
    if b.arg.Some? {
      ArguedAt(p.conversions, o, b.arg.value, Handled(o, m), a, k);
    }
  }

  lemma ProperFront(p: Settings, bs: seq<Binding>)
    requires bs != [] && Proper(p, bs)
    ensures Proper(p, bs[..|bs| - 1])
  {
    hide Accepts;
  }

  /** A string, number or enum variable that is used for nothing else holds the conversion of the last
      argument given to any option that points at it, or what it held before. */
  lemma {:induction false} LastArgumentWins(p: Settings, m: Memory, bs: seq<Binding>, k: Kind, a: Address)
    requires AllOnly(p, {k}, a) && !IsFlag(k) && !k.ListArg? && Proper(p, bs)
    ensures Lookup(BindAll(p, m, bs), a) ==
      match LastTo(p, bs, k, a)
      case None => Lookup(m, a)
      case Some(b) =>
        if b.o < |p.options| && b.arg.Some? then Converted(p.conversions, p.options[b.o], k, b.arg.value) else None
    ensures LastTo(p, bs, k, a).Some? ==> Lookup(BindAll(p, m, bs), a).Some?
  {
    if bs != [] {
      hide Bind, AllOnly, Lookup;
      var before, b := bs[..|bs| - 1], bs[|bs| - 1];
      ProperFront(p, bs);
      LastArgumentWins(p, m, before, k, a);
      BindAt(p, BindAll(p, m, before), b, k, a);
    }
  }

  /** All arguments for the variable, in order. */
  function ArgumentsTo(p: Settings, bs: seq<Binding>, a: Address): seq<string> {
    if bs == [] then []
    else
      var b := bs[|bs| - 1];
      ArgumentsTo(p, bs[..|bs| - 1], a) +
      if b.o < |p.options| && p.options[b.o].strvPtr == Some(a) && b.arg.Some? then [b.arg.value] else []
  }

  lemma Gathered(now: Memory, first: Memory, after: Memory, a: Address, done: seq<string>, arg: Option<string>)
    requires Lookup(now, a) == if done == [] then Lookup(first, a) else Some(ListValue(ListAt(first, a) + done))
    requires Lookup(after, a) == if arg.None? then Lookup(now, a) else Some(ListValue(ListAt(now, a) + [arg.value]))
    ensures var args := done + if arg.None? then [] else [arg.value];
      Lookup(after, a) == if args == [] then Lookup(first, a) else Some(ListValue(ListAt(first, a) + args))
  {
    if arg.Some? {
      assert ListAt(first, a) + (done + [arg.value]) == (ListAt(first, a) + done) + [arg.value];
      assert done == [] ==> ListAt(now, a) == ListAt(first, a) + done;
    } else {
      assert done + [] == done;
    }
  }

  /** A list variable holds what it held before and then all arguments, in order. */
  lemma {:induction false} ListGathers(p: Settings, m: Memory, bs: seq<Binding>, a: Address)
    requires AllOnly(p, {ListArg}, a) && Proper(p, bs)
    ensures var args := ArgumentsTo(p, bs, a);
      Lookup(BindAll(p, m, bs), a) == if args == [] then Lookup(m, a) else Some(ListValue(ListAt(m, a) + args))
  {
    if bs != [] {
      hide Bind, AllOnly;
      var before, b := bs[..|bs| - 1], bs[|bs| - 1];
      ProperFront(p, bs);
      ListGathers(p, m, before, a);
      BindAt(p, BindAll(p, m, before), b, ListArg, a);
      var arg := if p.options[b.o].strvPtr == Some(a) then b.arg else None;
      hide Lookup, ListAt;
      Gathered(BindAll(p, m, before), m, BindAll(p, m, bs), a, ArgumentsTo(p, before, a), arg);
    }
  }

  lemma ItemIsProper(p: Settings, x: Item)
    requires CanSay(p, x)
    ensures Proper(p, BindingsOf(x))
  {
    hide FindLong, FindShort, NeedsArgument, Accepts;
    assert x.Letters? ==> forall i | 0 <= i < |x.flags| :: HasShort(p, x.flags[i]);
  }

  /** So the laws apply to whatever is said. */
  lemma {:induction false} SaidIsProper(p: Settings, xs: seq<Item>)
    requires forall i | 0 <= i < |xs| :: CanSay(p, xs[i])
    ensures Proper(p, AllBindings(xs))
  {
    if xs != [] {
      hide CanSay, BindingsOf, Accepts;
      SaidIsProper(p, xs[..|xs| - 1]);
      ItemIsProper(p, xs[|xs| - 1]);
    }
  }

  /** A line that asks for help is read to its end; then `Parse` returns false, with no error, and
      tells the caller. */
  lemma HelpIsTold(p: Settings, help: Address, helpFlag: Option<Address>, argv0: string, xs: seq<Item>, m: Memory,
                   others: seq<string>)
    requires forall i | 0 <= i < |xs| :: CanSay(p, xs[i])
    requires AllOnly(p, {SetFlag}, help) && !AsksNoHelp(p, AllBindings(xs), help)
    ensures var r := Parsed(p, help, helpFlag, [argv0] + SayAll(p, xs), m, others);
      && !r.2 && r.3 == None && r.1 == others + AllOthers(xs)
      && (helpFlag.Some? ==> Lookup(r.0, helpFlag.value) == Some(BoolValue(true)))
  {
    hide CanSay, Elements, BindAll, AllBindings, Only;
    var m0 := Store(m[help := BoolValue(false)], helpFlag, BoolValue(false));
    SaidIsRead(p, argv0, xs, m0, others);
    var bs := AllBindings(xs);
    assert AllOnly(p, {SetFlag, ResetFlag}, help) by {
      OnlyMore(p, help);
    }
    LastFlagWins(p, m0, bs, help);
    HelpBound(p, bs, help);
  }

  lemma OnlyMore(p: Settings, a: Address)
    requires AllOnly(p, {SetFlag}, a)
    ensures AllOnly(p, {SetFlag, ResetFlag}, a)
  {
  }

  lemma {:induction false} HelpBound(p: Settings, bs: seq<Binding>, help: Address)
    requires AllOnly(p, {SetFlag}, help) && !AsksNoHelp(p, bs, help)
    ensures LastFlag(p, bs, help).Some?
    ensures var b := LastFlag(p, bs, help).value; b.o < |p.options| && p.options[b.o].resetIfPresent != Some(help)
  {
    var before, b := bs[..|bs| - 1], bs[|bs| - 1];
    if b.o < |p.options| && p.options[b.o].setIfPresent == Some(help) {
      assert Only(p.options[b.o], {SetFlag}, help);
    } else {
      assert forall i | 0 <= i < |before| :: before[i] == bs[i];
      assert b.o < |p.options| ==> Only(p.options[b.o], {SetFlag}, help);
      HelpBound(p, before, help);
    }
  }

  // ----- rejections -----

  /** `--name` or `--name=arg` less the dashes is read without error if and only if there is an option of
      that name that takes an argument just if one is given, and the argument converts; each way to
      fail has its own error. */
  lemma LongOutcome(p: Settings, name: string, arg: Option<string>, s: Progress)
    requires '=' !in name && s.error.None?
    ensures var r := LongElement(p, name + (if arg.Some? then "=" + arg.value else ""), s);
      var o := FindLong(p.options, name);
      && r.others == s.others && r.i == s.i && (o.None? ==> r.memory == s.memory)
      && (o.Some? && (NeedsArgument(p.options[o.value]) <==> arg.None?) ==>
            r.memory == Bind(p, s.memory, Binding(o.value, None)))
      && r.error ==
        if o.None? then Some(UnknownLong(name))
        else if NeedsArgument(p.options[o.value]) && arg.None? then Some(MissingLong(name))
        else if !NeedsArgument(p.options[o.value]) && arg.Some? then Some(Unexpected(name))
        else if arg.Some? && !Accepts(p.conversions, p.options[o.value], arg.value) then Some(BadArgument(arg.value))
        else None
  {
    var rest := if arg.Some? then "=" + arg.value else "";
    var text := name + rest;
    IndexOfIs(name, rest, '=');
    assert text[..|name|] == name;
    assert arg.Some? ==> text[|name| + 1..] == arg.value;
    var o := FindLong(p.options, name);
    if o.Some? && arg.Some? {
      GoodIfAccepted(p.conversions, p.options[o.value], arg.value, Handled(p.options[o.value], s.memory));
    }
    hide Argued, Accepts, FindLong, NeedsArgument, Handled;
  }

  lemma GoodIfAccepted(c: Conversions, o: OptionSpec, arg: string, m: Memory)
    ensures Argued(c, o, arg, m).1 <==> Accepts(c, o, arg)
  {
  }

  /** After flags that are read, the letter `c` with `more` letters after it is read without error if and
      only if it is an option's, and either takes no argument, or is the last, before an element that
      converts. */
  lemma ShortOutcome(p: Settings, argv: seq<string>, c: char, more: string, s: Progress)
    requires s.error.None?
    ensures var r := ShortElement(p, argv, [c] + more, s);
      var o := FindShort(p.options, c);
      && (o.None? ==> r.error == Some(UnknownShort(c)))
      && (o.Some? && NeedsArgument(p.options[o.value]) ==>
            r.error ==
              if more != "" || s.i + 1 >= |argv| then Some(MissingShort(c))
              else if !Accepts(p.conversions, p.options[o.value], argv[s.i + 1]) then Some(BadArgument(argv[s.i + 1]))
              else None)
      && (o.Some? && !NeedsArgument(p.options[o.value]) ==>
            r == ShortElement(p, argv, more, s.(memory := Bind(p, s.memory, Binding(o.value, None)))))
  {
    assert ([c] + more)[1..] == more;
    var o := FindShort(p.options, c);
    if o.Some? && s.i + 1 < |argv| {
      GoodIfAccepted(p.conversions, p.options[o.value], argv[s.i + 1], Handled(p.options[o.value], s.memory));
    }
    hide Argued, Accepts, FindShort, NeedsArgument, Handled;
  }

  /** What kind of element a text is. */
  lemma ElementIs(p: Settings, argv: seq<string>, s: Progress)
    requires s.i < |argv| && s.error.None?
    ensures forall text: string | argv[s.i] == "--" + text :: Element(p, argv, s) == LongElement(p, text, s)
    ensures forall text: string | argv[s.i] == "-" + text && (text == "" || text[0] != '-') ::
      Element(p, argv, s) == ShortElement(p, argv, text, s)
    ensures argv[s.i] == "" || argv[s.i][0] != '-' ==>
      Element(p, argv, s) ==
        if p.takesOthers then s.(others := s.others + [argv[s.i]]) else s.(error := Some(OtherArg(argv[s.i])))
  {
    hide LongElement, ShortElement;
    forall text: string | argv[s.i] == "--" + text
      ensures Element(p, argv, s) == LongElement(p, text, s)
    {
      assert ("--" + text)[2..] == text;
    }
    forall text: string | argv[s.i] == "-" + text && (text == "" || text[0] != '-')
      ensures Element(p, argv, s) == ShortElement(p, argv, text, s)
    {
      assert ("-" + text)[1..] == text;
    }
  }

  /** The first element that is in error ends the parse, wherever it stands: `Parse` returns false with
      that error, what was said before it has been done, and what follows it is not looked at. */
  lemma FirstErrorEnds(p: Settings, help: Address, helpFlag: Option<Address>, argv0: string, xs: seq<Item>, bad: string,
                       rest: seq<string>, m: Memory, others: seq<string>)
    requires forall i | 0 <= i < |xs| :: CanSay(p, xs[i])
    ensures var argv := [argv0] + SayAll(p, xs) + [bad] + rest;
      var m0 := Store(m[help := BoolValue(false)], helpFlag, BoolValue(false));
      var s := Progress(BindAll(p, m0, AllBindings(xs)), others + AllOthers(xs), 1 + |SayAll(p, xs)|, None);
      var r := Element(p, argv, s);
      && argv[s.i] == bad
      && (r.error.Some? ==> Parsed(p, help, helpFlag, argv, m, others) == (r.memory, r.others, false, r.error))
  {
    hide CanSay, Say, Element, BindAll, AllBindings, AllOthers, SayAll;
    var said := SayAll(p, xs);
    var argv := [argv0] + said + [bad] + rest;
    var m0 := Store(m[help := BoolValue(false)], helpFlag, BoolValue(false));
    assert argv[1..1 + |said|] == said;
    ItemsRead(p, argv, xs, Progress(m0, others, 1, None));
  }
}
