/** src/CommandLineParser.cpp: `Parse` and what it calls, and a printer of command lines that it is
    the inverse of. */
module CommandLine {
  import opened Options

  type CString = s: string | forall i | 0 <= i < |s| :: s[i] != '\0'

  /** Where an option's pointer points. */
  type Address = nat

  datatype Value = BoolValue(b: bool) | StringValue(s: string) | ListValue(list: seq<string>)
                 | NumberValue(n: int) | FloatValue(r: real)

  type Memory = map<Address, Value>

  /** The library's conversions: None for text that is no number, is out of range, or names no
      value of the enum with the given traits. */
  datatype Conversions = Conversions(toInt: string -> Option<int>, toFloat: string -> Option<real>,
                                     toSize: string -> Option<int>, toEnum: (nat, string) -> Option<int>)

  datatype OptionSpec = OptionSpec(
    shortOption: char, longOption: string,
    setIfPresent: Option<Address>, resetIfPresent: Option<Address>,
    strPtr: Option<Address>, strvPtr: Option<Address>, intPtr: Option<Address>, floatPtr: Option<Address>,
    sizePtr: Option<Address>, enumPtr: Option<(Address, nat)>)

  datatype Error = UnknownLong(name: string) | UnknownShort(c: char) | MissingLong(name: string) | MissingShort(c: char)
                 | Unexpected(name: string) | BadArgument(arg: string) | OtherArg(arg: string)

  // ----- what one option does -----

  predicate NeedsArgument(o: OptionSpec) {
    o.strPtr.Some? || o.intPtr.Some? || o.floatPtr.Some? || o.strvPtr.Some? || o.enumPtr.Some? || o.sizePtr.Some?
  }

  function Store(m: Memory, a: Option<Address>, v: Value): Memory {
    if a.Some? then m[a.value := v] else m
  }

  function Handled(o: OptionSpec, m: Memory): Memory {
    Store(Store(m, o.setIfPresent, BoolValue(true)), o.resetIfPresent, BoolValue(false))
  }

  function ListAt(m: Memory, a: Address): seq<string> {
    if a in m && m[a].ListValue? then m[a].list else []
  }

  /** The argument is stored through each pointer in turn, up to the first that does not take it. */
  function Argued(c: Conversions, o: OptionSpec, arg: string, m: Memory): (Memory, bool) {
    var m1 := Store(m, o.strPtr, StringValue(arg));
    var m2 := if o.strvPtr.Some? then m1[o.strvPtr.value := ListValue(ListAt(m1, o.strvPtr.value) + [arg])] else m1;
    if o.intPtr.Some? && c.toInt(arg).None? then (m2, false)
    else
      var m3 := if o.intPtr.Some? then m2[o.intPtr.value := NumberValue(c.toInt(arg).value)] else m2;
      if o.floatPtr.Some? && c.toFloat(arg).None? then (m3, false)
      else
        var m4 := if o.floatPtr.Some? then m3[o.floatPtr.value := FloatValue(c.toFloat(arg).value)] else m3;
        if o.sizePtr.Some? && c.toSize(arg).None? then (m4, false)
        else
          var m5 := if o.sizePtr.Some? then m4[o.sizePtr.value := NumberValue(c.toSize(arg).value)] else m4;
          if o.enumPtr.None? then (m5, true)
          else
            var v := c.toEnum(o.enumPtr.value.1, arg);
            if v.None? then (m5, false) else (m5[o.enumPtr.value.0 := NumberValue(v.value)], true)
  }

  /** The first option with this long name, or short letter. */
  function FindLong(options: seq<OptionSpec>, name: string): (r: Option<nat>)
    ensures r.Some? ==> r.value < |options| && options[r.value].longOption == name
    ensures r.Some? ==> forall i | 0 <= i < r.value :: options[i].longOption != name
    ensures r.None? ==> forall i | 0 <= i < |options| :: options[i].longOption != name
  {
    if options == [] then None
    else if options[0].longOption == name then Some(0)
    else match FindLong(options[1..], name)
      case None => None
      case Some(i) => Some(i + 1)
  }

  function FindShort(options: seq<OptionSpec>, c: char): (r: Option<nat>)
    ensures r.Some? ==> r.value < |options| && options[r.value].shortOption == c
    ensures r.Some? ==> forall i | 0 <= i < r.value :: options[i].shortOption != c
    ensures r.None? ==> forall i | 0 <= i < |options| :: options[i].shortOption != c
  {
    if options == [] then None
    else if options[0].shortOption == c then Some(0)
    else match FindShort(options[1..], c)
      case None => None
      case Some(i) => Some(i + 1)
  }

  // ----- the grammar of a command line -----

  datatype Settings = Settings(options: seq<OptionSpec>, conversions: Conversions, takesOthers: bool)

  /** What is done so far, and the index of the last element used. */
  datatype Progress = Progress(memory: Memory, others: seq<string>, i: nat, error: Option<Error>)

  function IndexOf(s: string, c: char): (n: nat)
    ensures n <= |s| && (n < |s| ==> s[n] == c) && forall i | 0 <= i < n :: s[i] != c
  {
    if s == "" || s[0] == c then 0 else 1 + IndexOf(s[1..], c)
  }

  function WithArgument(p: Settings, o: nat, arg: string, s: Progress): Progress
    requires o < |p.options|
  {
    var (m, good) := Argued(p.conversions, p.options[o], arg, s.memory);
    s.(memory := m, error := if good then None else Some(BadArgument(arg)))
  }

  /** `text` is an element less its two dashes. */
  function LongElement(p: Settings, text: string, s: Progress): Progress {
    var eq := IndexOf(text, '=');
    var name := text[..eq];
    match FindLong(p.options, name)
    case None => s.(error := Some(UnknownLong(name)))
    case Some(o) =>
      var u := s.(memory := Handled(p.options[o], s.memory));
      if NeedsArgument(p.options[o]) then
        if eq == |text| then u.(error := Some(MissingLong(name)))
        else WithArgument(p, o, text[eq + 1..], u)
      else if eq < |text| then u.(error := Some(Unexpected(name)))
      else u
  }

  /** `letters` is what is left of an element after its dash. */
  function ShortElement(p: Settings, argv: seq<string>, letters: string, s: Progress): (r: Progress)
    ensures r.i >= s.i
    decreases |letters|
  {
    if letters == "" then s
    else
      match FindShort(p.options, letters[0])
      case None => s.(error := Some(UnknownShort(letters[0])))
      case Some(o) =>
        var u := s.(memory := Handled(p.options[o], s.memory));
        if !NeedsArgument(p.options[o]) then ShortElement(p, argv, letters[1..], u)
        else if |letters| > 1 || s.i + 1 >= |argv| then u.(error := Some(MissingShort(letters[0])))
        else WithArgument(p, o, argv[s.i + 1], u.(i := s.i + 1))
  }

  /** Element `s.i`. */
  function Element(p: Settings, argv: seq<string>, s: Progress): (r: Progress)
    requires s.i < |argv|
    ensures r.i >= s.i
  {
    var arg := argv[s.i];
    if arg == "" || arg[0] != '-' then
      if p.takesOthers then s.(others := s.others + [arg]) else s.(error := Some(OtherArg(arg)))
    else if |arg| > 1 && arg[1] == '-' then LongElement(p, arg[2..], s)
    else ShortElement(p, argv, arg[1..], s)
  }

  /** All elements from `s.i` on. */
  function Elements(p: Settings, argv: seq<string>, s: Progress): Progress
    decreases if s.i < |argv| then |argv| - s.i else 0
  {
    if s.i >= |argv| || s.error.Some? then s
    else
      var r := Element(p, argv, s);
      if r.error.Some? then r else Elements(p, argv, r.(i := r.i + 1))
  }

  // ----- printing a command line, and reading it back -----

  /** One thing to say on a command line. Options are named by their index. */
  datatype Item =
    | LongArgument(o: nat, arg: string)
    | LongFlag(o: nat)
    | Letters(flags: seq<nat>, last: Option<(nat, string)>)
    | Other(text: string)

  function LettersText(p: Settings, flags: seq<nat>): string
    requires forall i | 0 <= i < |flags| :: flags[i] < |p.options|
  {
    if flags == [] then "" else [p.options[flags[0]].shortOption] + LettersText(p, flags[1..])
  }

  ghost predicate Accepts(c: Conversions, o: OptionSpec, arg: string) {
    && (o.intPtr.Some? ==> c.toInt(arg).Some?) && (o.floatPtr.Some? ==> c.toFloat(arg).Some?)
    && (o.sizePtr.Some? ==> c.toSize(arg).Some?) && (o.enumPtr.Some? ==> c.toEnum(o.enumPtr.value.1, arg).Some?)
  }

  predicate HasLong(p: Settings, o: nat) {
    o < |p.options| && FindLong(p.options, p.options[o].longOption) == Some(o) &&
    '=' !in p.options[o].longOption && '\0' !in p.options[o].longOption
  }

  predicate HasShort(p: Settings, o: nat) {
    o < |p.options| && FindShort(p.options, p.options[o].shortOption) == Some(o) && p.options[o].shortOption != '\0'
  }

  /** What can be said: the option is the first of its name, it takes an argument exactly if one is
      given, and the argument converts; other arguments do not begin with a dash. All texts are
      C strings. */
  ghost predicate CanSay(p: Settings, x: Item) {
    match x
    case LongArgument(o, arg) =>
      HasLong(p, o) && NeedsArgument(p.options[o]) && Accepts(p.conversions, p.options[o], arg) && '\0' !in arg
    case LongFlag(o) => HasLong(p, o) && !NeedsArgument(p.options[o])
    case Letters(flags, last) =>
      && (forall i | 0 <= i < |flags| :: HasShort(p, flags[i]) && !NeedsArgument(p.options[flags[i]]))
      && (last.Some? ==> HasShort(p, last.value.0) && NeedsArgument(p.options[last.value.0])
                         && Accepts(p.conversions, p.options[last.value.0], last.value.1) && '\0' !in last.value.1)
      && (flags != [] ==> p.options[flags[0]].shortOption != '-')
      && (flags == [] && last.Some? ==> p.options[last.value.0].shortOption != '-')
    case Other(text) => p.takesOthers && (text == "" || text[0] != '-') && '\0' !in text
  }

  function Say(p: Settings, x: Item): (argv: seq<string>)
    requires CanSay(p, x)
    ensures argv != []
  {
    match x
    case LongArgument(o, arg) => ["--" + p.options[o].longOption + "=" + arg]
    case LongFlag(o) => ["--" + p.options[o].longOption]
    case Letters(flags, last) =>
      if last.None? then ["-" + LettersText(p, flags)]
      else ["-" + LettersText(p, flags) + [p.options[last.value.0].shortOption], last.value.1]
    case Other(text) => [text]
  }

  function SayAll(p: Settings, xs: seq<Item>): seq<string>
    requires forall i | 0 <= i < |xs| :: CanSay(p, xs[i])
  {
    if xs == [] then [] else SayAll(p, xs[..|xs| - 1]) + Say(p, xs[|xs| - 1])
  }

  /** An option, and the argument it gets. */
  datatype Binding = Binding(o: nat, arg: Option<string>)

  function BindingsOf(x: Item): seq<Binding> {
    match x
    case LongArgument(o, arg) => [Binding(o, Some(arg))]
    case LongFlag(o) => [Binding(o, None)]
    case Letters(flags, last) =>
      seq(|flags|, i requires 0 <= i < |flags| => Binding(flags[i], None)) +
      if last.None? then [] else [Binding(last.value.0, Some(last.value.1))]
    case Other(_) => []
  }

  function OthersOf(x: Item): seq<string> {
    if x.Other? then [x.text] else []
  }

  function Bind(p: Settings, m: Memory, b: Binding): Memory {
    if b.o >= |p.options| then m
    else
      var m1 := Handled(p.options[b.o], m);
      if b.arg.None? then m1 else Argued(p.conversions, p.options[b.o], b.arg.value, m1).0
  }

  /** The bindings applied in order. */
  function BindAll(p: Settings, m: Memory, bs: seq<Binding>): Memory {
    if bs == [] then m else Bind(p, BindAll(p, m, bs[..|bs| - 1]), bs[|bs| - 1])
  }

  function AllBindings(xs: seq<Item>): seq<Binding> {
    if xs == [] then [] else AllBindings(xs[..|xs| - 1]) + BindingsOf(xs[|xs| - 1])
  }

  function AllOthers(xs: seq<Item>): seq<string> {
    if xs == [] then [] else AllOthers(xs[..|xs| - 1]) + OthersOf(xs[|xs| - 1])
  }

  lemma {:induction false} BindAllAppend(p: Settings, m: Memory, a: seq<Binding>, b: seq<Binding>)
    ensures BindAll(p, m, a + b) == BindAll(p, BindAll(p, m, a), b)
  {
    if b == [] {
      assert a + b == a;
    } else {
      assert (a + b)[..|a + b| - 1] == a + b[..|b| - 1];
      BindAllAppend(p, m, a, b[..|b| - 1]);
    }
  }

  lemma BindOne(p: Settings, m: Memory, b: Binding)
    ensures BindAll(p, m, [b]) == Bind(p, m, b) && BindAll(p, m, []) == m
  {
    assert [b][..0] == [];
  }

  lemma IndexOfIs(s: string, rest: string, c: char)
    requires c !in s && (rest == "" || rest[0] == c)
    ensures IndexOf(s + rest, c) == |s|
  {
    var t := s + rest;
    assert forall i | 0 <= i < |s| :: t[i] == s[i];
    assert rest != "" ==> t[|s|] == rest[0];
  }

  lemma AcceptedIsGood(c: Conversions, o: OptionSpec, arg: string, m: Memory)
    requires Accepts(c, o, arg)
    ensures Argued(c, o, arg, m).1
  {
  }

  function After(p: Settings, s: Progress, bs: seq<Binding>, others: seq<string>, i: nat): Progress {
    Progress(BindAll(p, s.memory, bs), s.others + others, i, s.error)
  }

  lemma LongReads(p: Settings, x: Item, s: Progress)
    requires s.error.None? && CanSay(p, x) && (x.LongArgument? || x.LongFlag?)
    ensures LongElement(p, Say(p, x)[0][2..], s) == After(p, s, BindingsOf(x), [], s.i)
  {
    var name := p.options[x.o].longOption;
    var rest := if x.LongArgument? then "=" + x.arg else "";
    var text := Say(p, x)[0][2..];
    assert text == name + rest;
    IndexOfIs(name, rest, '=');
    assert text[..|name|] == name;
    BindOne(p, s.memory, BindingsOf(x)[0]);
    if x.LongArgument? {
      assert text[|name| + 1..] == x.arg;
      AcceptedIsGood(p.conversions, p.options[x.o], x.arg, Handled(p.options[x.o], s.memory));
    }
  }

  function FlagBindings(flags: seq<nat>): seq<Binding> {
    seq(|flags|, i requires 0 <= i < |flags| => Binding(flags[i], None))
  }

  predicate AllFlags(p: Settings, flags: seq<nat>) {
    && (forall i | 0 <= i < |flags| :: flags[i] < |p.options|)
    && (forall i | 0 <= i < |flags| :: HasShort(p, flags[i]) && !NeedsArgument(p.options[flags[i]]))
  }

  lemma FlagRead(p: Settings, argv: seq<string>, o: nat, rest: string, s: Progress)
    requires HasShort(p, o) && !NeedsArgument(p.options[o])
    ensures ShortElement(p, argv, [p.options[o].shortOption] + rest, s) ==
            ShortElement(p, argv, rest, s.(memory := Bind(p, s.memory, Binding(o, None))))
  {
    hide NeedsArgument, Handled, FindShort;
    assert ([p.options[o].shortOption] + rest)[1..] == rest;
  }

  lemma {:induction false} FlagsRead(p: Settings, argv: seq<string>, flags: seq<nat>, tail: string, s: Progress)
    requires AllFlags(p, flags)
    ensures ShortElement(p, argv, LettersText(p, flags) + tail, s) ==
            ShortElement(p, argv, tail, s.(memory := BindAll(p, s.memory, FlagBindings(flags))))
    decreases |flags|
  {
    hide ShortElement, Bind, BindAll, HasShort, NeedsArgument;
    if flags == [] {
      BindOne(p, s.memory, Binding(0, None));
      assert LettersText(p, flags) + tail == tail;
    } else {
      var text := LettersText(p, flags) + tail;
      var first := Binding(flags[0], None);
      assert text == [p.options[flags[0]].shortOption] + (LettersText(p, flags[1..]) + tail);
      FlagRead(p, argv, flags[0], LettersText(p, flags[1..]) + tail, s);
      assert FlagBindings(flags) == [first] + FlagBindings(flags[1..]);
      BindAllAppend(p, s.memory, [first], FlagBindings(flags[1..]));
      BindOne(p, s.memory, first);
      FlagsRead(p, argv, flags[1..], tail, s.(memory := Bind(p, s.memory, first)));
    }
  }

  lemma LastRead(p: Settings, argv: seq<string>, o: nat, arg: string, s: Progress)
    requires HasShort(p, o) && NeedsArgument(p.options[o]) && Accepts(p.conversions, p.options[o], arg)
    requires s.error.None? && s.i + 1 < |argv| && argv[s.i + 1] == arg
    ensures ShortElement(p, argv, [p.options[o].shortOption], s) ==
            After(p, s, [Binding(o, Some(arg))], [], s.i + 1)
  {
    hide Argued, Accepts, FindShort, Handled, NeedsArgument;
    var b := Binding(o, Some(arg));
    BindOne(p, s.memory, b);
    AcceptedIsGood(p.conversions, p.options[o], arg, Handled(p.options[o], s.memory));
    hide BindAll;
    var letters := [p.options[o].shortOption];
    var u := s.(memory := Handled(p.options[o], s.memory));
    assert ShortElement(p, argv, letters, s) == WithArgument(p, o, argv[s.i + 1], u.(i := s.i + 1));
    assert s.others + [] == s.others;
  }

  lemma FlagsAlone(p: Settings, argv: seq<string>, flags: seq<nat>, s: Progress)
    requires AllFlags(p, flags)
    ensures ShortElement(p, argv, LettersText(p, flags), s) == After(p, s, FlagBindings(flags), [], s.i)
  {
    FlagsRead(p, argv, flags, "", s);
    hide HasShort, BindAll, FlagBindings;
    assert LettersText(p, flags) + "" == LettersText(p, flags) && s.others + [] == s.others;
  }

  lemma FlagsThenLast(p: Settings, argv: seq<string>, flags: seq<nat>, o: nat, arg: string, s: Progress)
    requires AllFlags(p, flags)
    requires HasShort(p, o) && NeedsArgument(p.options[o]) && Accepts(p.conversions, p.options[o], arg)
    requires s.error.None? && s.i + 1 < |argv| && argv[s.i + 1] == arg
    ensures ShortElement(p, argv, LettersText(p, flags) + [p.options[o].shortOption], s) ==
            After(p, s, FlagBindings(flags) + [Binding(o, Some(arg))], [], s.i + 1)
  {
    hide ShortElement, BindAll, FlagBindings, AllFlags, FindShort, Accepts, NeedsArgument;
    var last := Binding(o, Some(arg));
    FlagsRead(p, argv, flags, [p.options[o].shortOption], s);
    LastRead(p, argv, o, arg, s.(memory := BindAll(p, s.memory, FlagBindings(flags))));
    BindAllAppend(p, s.memory, FlagBindings(flags), [last]);
  }

  lemma LettersRead(p: Settings, argv: seq<string>, x: Item, s: Progress)
    requires s.error.None? && x.Letters? && CanSay(p, x)
    requires s.i < |argv| && (x.last.Some? ==> s.i + 1 < |argv| && argv[s.i + 1] == x.last.value.1)
    ensures ShortElement(p, argv, Say(p, x)[0][1..], s) == After(p, s, BindingsOf(x), [], s.i + |Say(p, x)| - 1)
  {
    hide ShortElement, Accepts, HasShort, After, NeedsArgument;
    var flags := x.flags;
    assert AllFlags(p, flags) by {
      FlagsAreOptions(p, x);
    }
    if x.last.None? {
      FlagsAlone(p, argv, flags, s);
      assert Say(p, x)[0][1..] == LettersText(p, flags) && BindingsOf(x) == FlagBindings(flags);
    } else {
      FlagsAreOptions(p, x);
      var o, arg := x.last.value.0, x.last.value.1;
      FlagsThenLast(p, argv, flags, o, arg, s);
      assert Say(p, x)[0][1..] == LettersText(p, flags) + [p.options[o].shortOption];
    }
  }

  lemma FlagsAreOptions(p: Settings, x: Item)
    requires x.Letters? && CanSay(p, x)
    ensures AllFlags(p, x.flags) && (x.last.Some? ==> x.last.value.0 < |p.options|)
  {
    hide FindShort;
    forall i | 0 <= i < |x.flags|
      ensures x.flags[i] < |p.options|
    {
      assert HasShort(p, x.flags[i]);
    }
  }

  /** One item is read as itself, wherever it stands. */
  lemma ItemReads(p: Settings, argv: seq<string>, x: Item, s: Progress)
    requires s.error.None? && CanSay(p, x)
    requires s.i + |Say(p, x)| <= |argv| && argv[s.i..s.i + |Say(p, x)|] == Say(p, x)
    ensures Element(p, argv, s) == After(p, s, BindingsOf(x), OthersOf(x), s.i + |Say(p, x)| - 1)
  {
    hide LongElement, ShortElement;
    var said := Say(p, x);
    assert argv[s.i] == said[0];
    match x {
      case Other(_) => assert BindAll(p, s.memory, []) == s.memory;
      case LongArgument(_, _) => LongReads(p, x, s);
      case LongFlag(_) => LongReads(p, x, s);
      case Letters(flags, last) =>
        assert last.Some? ==> argv[s.i + 1] == argv[s.i..s.i + |said|][1];
        LettersRead(p, argv, x, s);
        assert |said[0]| > 1 && flags != [] ==> said[0][1] == p.options[flags[0]].shortOption;
    }
  }

  /** And the rest of the line is read from there. */
  lemma ItemThenRest(p: Settings, argv: seq<string>, x: Item, s: Progress)
    requires s.error.None? && CanSay(p, x)
    requires s.i + |Say(p, x)| <= |argv| && argv[s.i..s.i + |Say(p, x)|] == Say(p, x)
    ensures Elements(p, argv, s) == Elements(p, argv, After(p, s, BindingsOf(x), OthersOf(x), s.i + |Say(p, x)|))
  {
    hide Elements, Element, CanSay, Say, BindingsOf, OthersOf;
    ItemReads(p, argv, x, s);
    ElementsStep(p, argv, s);
  }

  lemma ElementsStep(p: Settings, argv: seq<string>, s: Progress)
    requires s.error.None? && s.i < |argv| && Element(p, argv, s).error.None?
    ensures Elements(p, argv, s) == Elements(p, argv, Element(p, argv, s).(i := Element(p, argv, s).i + 1))
  {
    hide Element;
  }

  lemma AfterTwice(p: Settings, s: Progress, a: seq<Binding>, b: seq<Binding>, c: seq<string>, d: seq<string>,
                   i: nat, j: nat)
    ensures After(p, After(p, s, a, c, i), b, d, j) == After(p, s, a + b, c + d, j)
  {
    BindAllAppend(p, s.memory, a, b);
    assert s.others + c + d == s.others + (c + d);
  }

  lemma {:induction false} ItemsRead(p: Settings, argv: seq<string>, xs: seq<Item>, s: Progress)
    requires s.error.None? && forall i | 0 <= i < |xs| :: CanSay(p, xs[i])
    requires s.i + |SayAll(p, xs)| <= |argv| && argv[s.i..s.i + |SayAll(p, xs)|] == SayAll(p, xs)
    ensures Elements(p, argv, s) ==
            Elements(p, argv, After(p, s, AllBindings(xs), AllOthers(xs), s.i + |SayAll(p, xs)|))
    decreases |xs|
  {
    hide Elements, CanSay, Say, BindingsOf, OthersOf;
    if xs == [] {
      assert s == After(p, s, [], [], s.i);
    } else {
      var before, x := xs[..|xs| - 1], xs[|xs| - 1];
      var n, all := |SayAll(p, before)|, argv[s.i..s.i + |SayAll(p, xs)|];
      assert argv[s.i..s.i + n] == all[..n];
      ItemsRead(p, argv, before, s);
      var u := After(p, s, AllBindings(before), AllOthers(before), s.i + n);
      assert argv[u.i..u.i + |Say(p, x)|] == all[n..];
      ItemThenRest(p, argv, x, u);
      AfterTwice(p, s, AllBindings(before), BindingsOf(x), AllOthers(before), OthersOf(x), u.i, s.i + |SayAll(p, xs)|);
    }
  }

  /** Printing and parsing: whatever can be said is read without error; exactly the bindings said
      are applied, in order, and exactly the other arguments are collected, in order. */
  lemma SaidIsRead(p: Settings, argv0: string, xs: seq<Item>, m: Memory, others: seq<string>)
    requires forall i | 0 <= i < |xs| :: CanSay(p, xs[i])
    ensures var argv := [argv0] + SayAll(p, xs);
      Elements(p, argv, Progress(m, others, 1, None)) ==
      Progress(BindAll(p, m, AllBindings(xs)), others + AllOthers(xs), |argv|, None)
  {
    hide CanSay, Say, Element;
    var argv := [argv0] + SayAll(p, xs);
    assert argv[1..] == SayAll(p, xs);
    ItemsRead(p, argv, xs, Progress(m, others, 1, None));
  }

  // ----- the code -----

  class CommandLineParser {
    const p: Settings
    /** `m_help`, and where the help option's flag is to be reported. */
    const help: Address
    const helpFlag: Option<Address>
    /** The variables the options point at. */
    var memory: Memory

    constructor (p: Settings, help: Address, helpFlag: Option<Address>, memory: Memory)
      ensures this.p == p && this.help == help && this.helpFlag == helpFlag && this.memory == memory
    {
      this.p, this.help, this.helpFlag, this.memory := p, help, helpFlag, memory;
    }

    method FindByLongOption(name: string) returns (o: Option<nat>)
      ensures o == FindLong(p.options, name)
    {
      for i := 0 to |p.options|
        invariant forall j | 0 <= j < i :: p.options[j].longOption != name
      {
        if p.options[i].longOption == name {
          return Some(i);
        }
      }
      return None;
    }

    method FindByShortOption(c: char) returns (o: Option<nat>)
      ensures o == FindShort(p.options, c)
    {
      for i := 0 to |p.options|
        invariant forall j | 0 <= j < i :: p.options[j].shortOption != c
      {
        if p.options[i].shortOption == c {
          return Some(i);
        }
      }
      return None;
    }

    method HandleOption(o: OptionSpec) returns (needs: bool)
      modifies this
      ensures memory == Handled(o, old(memory)) && needs == NeedsArgument(o)
    {
      if o.setIfPresent.Some? {
        memory := memory[o.setIfPresent.value := BoolValue(true)];
      }
      if o.resetIfPresent.Some? {
        memory := memory[o.resetIfPresent.value := BoolValue(false)];
      }
      needs := NeedsArgument(o);
    }

    method DoArgument(o: OptionSpec, arg: string) returns (good: bool)
      modifies this
      ensures (memory, good) == Argued(p.conversions, o, arg, old(memory))
    {
      if o.strPtr.Some? {
        memory := memory[o.strPtr.value := StringValue(arg)];
      }
      if o.strvPtr.Some? {
        memory := memory[o.strvPtr.value := ListValue(ListAt(memory, o.strvPtr.value) + [arg])];
      }
      if o.intPtr.Some? {
        var l := p.conversions.toInt(arg);
        if l.None? {
          return false;
        }
        memory := memory[o.intPtr.value := NumberValue(l.value)];
      }
      if o.floatPtr.Some? {
        var d := p.conversions.toFloat(arg);
        if d.None? {
          return false;
        }
        memory := memory[o.floatPtr.value := FloatValue(d.value)];
      }
      if o.sizePtr.Some? {
        var u := p.conversions.toSize(arg);
        if u.None? {
          return false;
        }
        memory := memory[o.sizePtr.value := NumberValue(u.value)];
      }
      if o.enumPtr.Some? {
        var v := p.conversions.toEnum(o.enumPtr.value.1, arg);
        if v.None? {
          return false;
        }
        memory := memory[o.enumPtr.value.0 := NumberValue(v.value)];
      }
      return true;
    }

    ghost function P(others: seq<string>, i: nat, error: Option<Error>): Progress
      reads this
    {
      Progress(memory, others, i, error)
    }

    /** The branch for an element that begins with two dashes. */
    method ParseLong(arg: string, ghost others: seq<string>, ghost i: nat) returns (error: Option<Error>)
      requires |arg| >= 2
      modifies this
      ensures P(others, i, error) == LongElement(p, arg[2..], old(P(others, i, None)))
    {
      hide FindLong, Argued, Handled, NeedsArgument;
      var longOption := arg[2..];
      var eq := IndexOf(longOption, '=');
      var gotArg := eq < |longOption|;
      var o := FindByLongOption(longOption[..eq]);
      if o.None? {
        return Some(UnknownLong(longOption[..eq]));
      }
      var needs := HandleOption(p.options[o.value]);
      if needs {
        if !gotArg {
          return Some(MissingLong(longOption[..eq]));
        }
        var good := DoArgument(p.options[o.value], longOption[eq + 1..]);
        if !good {
          return Some(BadArgument(longOption[eq + 1..]));
        }
      } else {
        if gotArg {
          return Some(Unexpected(longOption[..eq]));
        }
      }
      return None;
    }

    /** The branch for an element that begins with one dash. */
    method ParseShorts(argv: seq<CString>, from: nat, ghost others: seq<string>) returns (i: nat, error: Option<Error>)
      requires from < |argv| && argv[from] != ""
      modifies this
      ensures i >= from && P(others, i, error) == ShortElement(p, argv, argv[from][1..], old(P(others, from, None)))
    {
      hide FindShort, Argued, Handled, NeedsArgument;
      i, error := from, None;
      var letters := argv[from];
      var c := 1;
      while c < |letters|
        invariant 1 <= c <= |letters| && i >= from && (c < |letters| ==> i == from)
        invariant ShortElement(p, argv, letters[c..], P(others, i, None)) ==
                  ShortElement(p, argv, letters[1..], old(P(others, from, None)))
      {
        ghost var left := letters[c..];
        assert left[1..] == letters[c + 1..];
        var o := FindByShortOption(letters[c]);
        if o.None? {
          return i, Some(UnknownShort(letters[c]));
        }
        var needs := HandleOption(p.options[o.value]);
        if needs {
          if c + 1 < |letters| || i + 1 == |argv| {
            return i, Some(MissingShort(letters[c]));
          }
          i := i + 1;
          var good := DoArgument(p.options[o.value], argv[i]);
          if !good {
            return i, Some(BadArgument(argv[i]));
          }
        }
        c := c + 1;
      }
      assert letters[c..] == "";
    }

    /** `Parse`. `others` is what the caller's vector holds already; `p.takesOthers` says whether
        there is one. */
    method Parse(argv: seq<CString>, others: seq<string>)
      returns (ok: bool, collected: seq<string>, error: Option<Error>)
      modifies this
      ensures (memory, collected, ok, error) == Parsed(p, help, helpFlag, argv, old(memory), others)
    {
      hide LongElement, ShortElement;
      var i := 1;
      error := None;
      collected := others;
      memory := memory[help := BoolValue(false)];
      if helpFlag.Some? {
        memory := memory[helpFlag.value := BoolValue(false)];
      }
      ghost var s := P(collected, 1, None);
      while i < |argv|
        invariant i >= 1 && error.None?
        invariant Elements(p, argv, P(collected, i, None)) == Elements(p, argv, s)
        decreases |argv| - i
      {
        var arg := argv[i];
        if arg != "" && arg[0] == '-' {
          if |arg| > 1 && arg[1] == '-' {
            error := ParseLong(arg, collected, i);
            if error.Some? {
              return false, collected, error;
            }
          } else {
            i, error := ParseShorts(argv, i, collected);
            if error.Some? {
              return false, collected, error;
            }
          }
        } else {
          if p.takesOthers {
            collected := collected + [arg];
          } else {
            return false, collected, Some(OtherArg(arg));
          }
        }
        i := i + 1;
      }
      if help in memory && memory[help] == BoolValue(true) {
        if helpFlag.Some? {
          memory := memory[helpFlag.value := BoolValue(true)];
        }
        return false, collected, None;
      }
      return true, collected, None;
    }
  }

  /** The whole call: what it leaves in the variables and the caller's vector, what it returns, and
      what it reports. */
  function Parsed(p: Settings, help: Address, helpFlag: Option<Address>, argv: seq<string>, m: Memory,
                  others: seq<string>): (Memory, seq<string>, bool, Option<Error>)
  {
    var m0 := Store(m[help := BoolValue(false)], helpFlag, BoolValue(false));
    var r := Elements(p, argv, Progress(m0, others, 1, None));
    var helped := help in r.memory && r.memory[help] == BoolValue(true);
    if r.error.Some? then (r.memory, r.others, false, r.error)
    else if helped then (Store(r.memory, helpFlag, BoolValue(true)), r.others, false, None)
    else (r.memory, r.others, true, None)
  }

  /** The options said do not ask for help. */
  predicate AsksNoHelp(p: Settings, bs: seq<Binding>, help: Address) {
    forall i | 0 <= i < |bs| && bs[i].o < |p.options| :: p.options[bs[i].o].setIfPresent != Some(help)
  }

  /** `Parse` succeeds on everything that can be said, unless the help option is among it. */
  lemma SaidIsParsed(p: Settings, help: Address, helpFlag: Option<Address>, argv0: string, xs: seq<Item>, m: Memory,
                     others: seq<string>)
    requires forall i | 0 <= i < |xs| :: CanSay(p, xs[i])
    requires AsksNoHelp(p, AllBindings(xs), help)
    ensures var m0 := Store(m[help := BoolValue(false)], helpFlag, BoolValue(false));
      Parsed(p, help, helpFlag, [argv0] + SayAll(p, xs), m, others) ==
      (BindAll(p, m0, AllBindings(xs)), others + AllOthers(xs), true, None)
  {
    hide CanSay, Elements, AsksNoHelp;
    var m0 := Store(m[help := BoolValue(false)], helpFlag, BoolValue(false));
    SaidIsRead(p, argv0, xs, m0, others);
    HelpStaysOff(p, m0, AllBindings(xs), help);
  }

  predicate NoFlag(m: Memory, a: Address) {
    a in m && m[a] != BoolValue(true)
  }

  lemma NoFlagStored(m: Memory, a: Address, at: Address, v: Value)
    requires NoFlag(m, a) && v != BoolValue(true)
    ensures NoFlag(m[at := v], a)
  {
  }

  lemma ArguedIsNoFlag(c: Conversions, o: OptionSpec, arg: string, m: Memory, a: Address)
    requires NoFlag(m, a)
    ensures NoFlag(Argued(c, o, arg, m).0, a)
  {
    hide NoFlag;
    forall m: Memory, at: Address, v: Value {:trigger NoFlag(m[at := v], a)} | NoFlag(m, a) && v != BoolValue(true)
      ensures NoFlag(m[at := v], a)
    {
      NoFlagStored(m, a, at, v);
    }
  }

  lemma {:induction false} HelpStaysOff(p: Settings, m: Memory, bs: seq<Binding>, help: Address)
    requires NoFlag(m, help) && AsksNoHelp(p, bs, help)
    ensures NoFlag(BindAll(p, m, bs), help)
  {
    if bs != [] {
      var before, b := bs[..|bs| - 1], bs[|bs| - 1];
      HelpStaysOff(p, m, before, help);
      if b.o < |p.options| && b.arg.Some? {
        var m1 := Handled(p.options[b.o], BindAll(p, m, before));
        ArguedIsNoFlag(p.conversions, p.options[b.o], b.arg.value, m1, help);
      }
      hide Argued;
    }
  }
}
