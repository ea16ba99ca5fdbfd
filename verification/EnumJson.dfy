/** include/shared/enums.h: JSON for `EnumFlags` and `Enum`. The function that names the values of
    the enum is a parameter. */
module EnumJson {
  import opened Bits

  /** What the code asks of JSON: whether it is an array, and which of its elements are strings. */
  datatype Element = Str(s: string) | NoString
  datatype Json = Array(items: seq<Element>) | NoArray

  /** The naming function answers for an unknown value with a name that begins with '?'. */
  predicate IsName(name: string) {
    name == "" || name[0] != '?'
  }

  // ----- flags -----

  /** The flag of bit `k`, if it has a name. */
  predicate Named(names: nat -> string, k: nat) {
    IsName(names(Pow2(k)))
  }

  /** Bit `k` is the lowest named `s`. */
  predicate IsFirst(names: nat -> string, k: nat, s: string) {
    Named(names, k) && names(Pow2(k)) == s && forall j: nat | j < k :: Named(names, j) ==> names(Pow2(j)) != s
  }

  /** The names of the named bits of `v` below bit `k`. */
  function NamesBelow(names: nat -> string, v: nat, k: nat): seq<Element> {
    if k == 0 then []
    else NamesBelow(names, v, k - 1) + if Named(names, k - 1) && Bit(v, k - 1) then [Str(names(Pow2(k - 1)))] else []
  }

  method ToJson(names: nat -> string, width: nat, value: nat) returns (j: Json)
    requires width > 0 && value < Pow2(width)
    ensures j == Array(NamesBelow(names, value, width))
  {
    var items: seq<Element> := [];
    var mask := 1;
    ghost var k: nat := 0;
    while mask != 0
      invariant k <= width && mask == if k < width then Pow2(k) else 0
      invariant items == NamesBelow(names, value, k)
      decreases width - k
    {
      ShiftSingleBit(k, width);
      SingleBitTest(value, k);
      hide And, Bit, ShiftLeft, Pow2;
      var name := names(mask);
      if IsName(name) && And(value, mask) != 0 {
        items := items + [Str(name)];
      }
      mask := ShiftLeft(mask, width);
      k := k + 1;
    }
    j := Array(items);
  }

  /** The inner loop of `from_json`: the value with the flag of that name, if there is one. */
  method AddFlag(names: nat -> string, width: nat, value: nat, s: string) returns (r: nat)
    requires width > 0 && value < Pow2(width)
    ensures r < Pow2(width)
    ensures forall k: nat :: Bit(r, k) <==> Bit(value, k) || (k < width && IsFirst(names, k, s))
  {
    var mask := 1;
    ghost var k: nat := 0;
    while mask != 0
      invariant k <= width && mask == if k < width then Pow2(k) else 0
      invariant forall j: nat | j < k :: Named(names, j) ==> names(Pow2(j)) != s
      decreases width - k
    {
      ShiftSingleBit(k, width);
      var name := names(mask);
      if IsName(name) && s == name {
        Pow2Grows(k, width);
        OrFits(value, mask, width);
        forall j: nat
          ensures Bit(Or(value, mask), j) <==> Bit(value, j) || j == k
        {
          OrBits(value, mask, j);
          Pow2Bits(k, j);
        }
        return Or(value, mask);
      }
      mask := ShiftLeft(mask, width);
      k := k + 1;
    }
    r := value;
  }

  /** Bit `k` is named, first of its name, and its name is among the strings. */
  predicate Chosen(names: nat -> string, width: nat, items: seq<Element>, k: nat) {
    k < width && Str(names(Pow2(k))) in items && IsFirst(names, k, names(Pow2(k)))
  }

  /** What `from_json` is to make of an array. */
  ghost predicate IsRead(names: nat -> string, width: nat, items: seq<Element>, r: nat) {
    r < Pow2(width) && forall k: nat :: Bit(r, k) <==> Chosen(names, width, items, k)
  }

  /** What `from_json` sets, bit by bit: the order of the array, what it says twice, unknown names
      and elements that are no strings do not matter. Anything but an array leaves the value. */
  method FromJson(names: nat -> string, width: nat, j: Json, value: nat) returns (r: nat)
    requires width > 0 && value < Pow2(width)
    ensures if j.Array? then IsRead(names, width, j.items, r) else r == value
  {
    if !j.Array? {
      return value;
    }
    hide Bit;
    r := 0;
    forall k: nat
      ensures !Bit(0, k)
    {
      ZeroBits(k);
    }
    for i := 0 to |j.items|
      invariant r < Pow2(width)
      invariant forall k: nat :: Bit(r, k) <==> Chosen(names, width, j.items[..i], k)
    {
      ghost var before := r;
      assert j.items[..i + 1] == j.items[..i] + [j.items[i]];
      if j.items[i].Str? {
        r := AddFlag(names, width, r, j.items[i].s);
      }
    }
    assert j.items[..|j.items|] == j.items;
  }

  // ----- there and back -----

  lemma {:induction false} NamesAre(names: nat -> string, v: nat, width: nat, s: string)
    ensures Str(s) in NamesBelow(names, v, width) <==>
      exists k: nat :: k < width && Named(names, k) && Bit(v, k) && names(Pow2(k)) == s
  {
    hide Bit, Named, Pow2;
    if width > 0 {
      NamesAre(names, v, width - 1, s);
    }
  }

  /** The names are written in the order of their bits, each bit once. */
  lemma {:induction false} NamesInOrder(names: nat -> string, v: nat, width: nat) returns (bits: seq<nat>)
    ensures var items := NamesBelow(names, v, width);
      |bits| == |items| && forall i | 0 <= i < |bits| :: items[i] == Str(names(Pow2(bits[i])))
    ensures forall i, j | 0 <= i < j < |bits| :: bits[i] < bits[j]
    ensures forall k: nat ::
      k in bits <==> k < width && (names(Pow2(k)) == "" || names(Pow2(k))[0] != '?') && Bit(v, k)
  {
    hide Bit, Pow2, NamesBelow;
    NamesNext(names, v, width);
    if width == 0 {
      bits := [];
    } else {
      bits := NamesInOrder(names, v, width - 1);
      if Named(names, width - 1) && Bit(v, width - 1) {
        assert forall i | 0 <= i < |bits| :: bits[i] in bits;
        ghost var was := bits;
        bits := bits + [width - 1];
        assert forall k: nat :: k in bits <==> k in was || k == width - 1;
      }
    }
  }

  lemma NamesNext(names: nat -> string, v: nat, width: nat)
    ensures NamesBelow(names, v, 0) == []
    ensures width > 0 ==>
      NamesBelow(names, v, width) ==
      NamesBelow(names, v, width - 1) +
      if Named(names, width - 1) && Bit(v, width - 1) then [Str(names(Pow2(width - 1)))] else []
  {
    hide Bit, Named, Pow2;
  }

  /** No two named bits share a name. */
  predicate Distinct(names: nat -> string, width: nat) {
    forall j: nat, k: nat | j < k < width :: Named(names, j) && Named(names, k) ==> names(Pow2(j)) != names(Pow2(k))
  }

  /** The named bits. */
  function NamedMask(names: nat -> string, width: nat): nat {
    if width == 0 then 0
    else Or(NamedMask(names, width - 1), if Named(names, width - 1) then Pow2(width - 1) else 0)
  }

  lemma {:induction false} NamedMaskBits(names: nat -> string, width: nat, k: nat)
    ensures Bit(NamedMask(names, width), k) <==> k < width && Named(names, k)
  {
    ZeroBits(k);
    if width > 0 {
      var top := if Named(names, width - 1) then Pow2(width - 1) else 0;
      NamedMaskBits(names, width - 1, k);
      Pow2Bits(width - 1, k);
      OrBits(NamedMask(names, width - 1), top, k);
      hide Bit, Named;
    }
  }

  /** It depends on nothing but the set of strings. */
  lemma OnlyStringsMatter(names: nat -> string, width: nat, a: seq<Element>, b: seq<Element>, r: nat, t: nat)
    requires forall s: string :: Str(s) in a <==> Str(s) in b
    requires IsRead(names, width, a, r) && IsRead(names, width, b, t)
    ensures r == t
  {
    hide Bit, IsFirst;
    SameBits(r, t, width);
  }

  /** Every named bit that is set is the first of its name. */
  predicate Unshadowed(names: nat -> string, width: nat, v: nat) {
    forall k: nat | k < width && Named(names, k) && Bit(v, k) :: IsFirst(names, k, names(Pow2(k)))
  }

  /** Whether bit `k` comes back. */
  lemma BitReadBack(names: nat -> string, width: nat, v: nat, r: nat, k: nat)
    requires k < width && IsRead(names, width, NamesBelow(names, v, width), r)
    ensures Bit(r, k) ==> Named(names, k)
    ensures Named(names, k) && Bit(v, k) ==> (Bit(r, k) <==> IsFirst(names, k, names(Pow2(k))))
    ensures Bit(r, k) && !Bit(v, k) ==>
      exists j: nat :: k < j < width && Named(names, j) && Bit(v, j) && !IsFirst(names, j, names(Pow2(j)))
  {
    hide Bit, NamesBelow, Pow2;
    NamesAre(names, v, width, names(Pow2(k)));
    if Bit(r, k) && !Bit(v, k) {
      var j: nat :| j < width && Named(names, j) && Bit(v, j) && names(Pow2(j)) == names(Pow2(k));
      assert j >= k;
    }
  }

  /** Writing and reading gives a value back, less the bits without a name, exactly if each named bit
      it has is the first of its name: a bit that shares its name with a lower one comes back as that. */
  lemma RoundTrip(names: nat -> string, width: nat, v: nat, r: nat)
    requires v < Pow2(width) && IsRead(names, width, NamesBelow(names, v, width), r)
    ensures r == And(v, NamedMask(names, width)) <==> Unshadowed(names, width, v)
  {
    hide Bit, NamesBelow, And, IsFirst;
    var named := And(v, NamedMask(names, width));
    AndFits(v, NamedMask(names, width), width);
    forall k: nat | k < width
      ensures Bit(named, k) <==> Bit(v, k) && Named(names, k)
    {
      AndBits(v, NamedMask(names, width), k);
      NamedMaskBits(names, width, k);
    }
    forall k: nat | k < width
      ensures Named(names, k) && Bit(v, k) ==> (Bit(r, k) <==> IsFirst(names, k, names(Pow2(k))))
      ensures Unshadowed(names, width, v) ==> (Bit(r, k) <==> Bit(named, k))
    {
      BitReadBack(names, width, v, r, k);
    }
    if Unshadowed(names, width, v) {
      SameBits(r, named, width);
    }
  }

  lemma FirstIfDistinct(names: nat -> string, width: nat, k: nat)
    requires Distinct(names, width) && k < width && Named(names, k)
    ensures IsFirst(names, k, names(Pow2(k)))
  {
  }

  lemma ShadowedBit(names: nat -> string, width: nat, j: nat, k: nat)
    requires j < k < width && Named(names, j) && Named(names, k) && names(Pow2(j)) == names(Pow2(k))
    ensures Pow2(k) < Pow2(width) && !Unshadowed(names, width, Pow2(k))
  {
    Pow2Bits(k, k);
    SingleBitFits(k, width);
    hide Bit, Pow2, Named;
    assert !IsFirst(names, k, names(Pow2(k)));
  }

  /** So all values come back if and only if no two named bits share a name. */
  lemma AllValuesComeBack(names: nat -> string, width: nat)
    ensures Distinct(names, width) <==> forall v: nat | v < Pow2(width) :: Unshadowed(names, width, v)
  {
    hide Bit, Named, Pow2, IsFirst;
    if Distinct(names, width) {
      forall k: nat | k < width && Named(names, k)
        ensures IsFirst(names, k, names(Pow2(k)))
      {
        FirstIfDistinct(names, width, k);
      }
    } else {
      var j: nat, k: nat :| j < k < width && Named(names, j) && Named(names, k) && names(Pow2(j)) == names(Pow2(k));
      ShadowedBit(names, width, j, k);
    }
  }

  lemma SingleBitFits(k: nat, width: nat)
    requires k < width
    ensures Pow2(k) < Pow2(width)
  {
    Pow2Grows(k, width);
  }

  /** Of two bits that share a name the higher is lost, whatever else the value has. */
  lemma SharedNameIsLost(names: nat -> string, width: nat, v: nat, j: nat, k: nat, r: nat)
    requires j < k < width && Named(names, j) && Named(names, k) && names(Pow2(j)) == names(Pow2(k)) && Bit(v, k)
    requires IsRead(names, width, NamesBelow(names, v, width), r)
    ensures !Bit(r, k) && Bit(And(v, NamedMask(names, width)), k)
  {
    hide NamesBelow, And, Bit;
    AndBits(v, NamedMask(names, width), k);
    NamedMaskBits(names, width, k);
    assert !IsFirst(names, k, names(Pow2(k)));
  }

  // ----- plain enums -----

  function EnumToJson(names: nat -> string, value: nat): string {
    names(value)
  }

  /** Values 0 to `end` - 1 are named and `end` is not. */
  predicate NamesEnd(names: nat -> string, end: nat) {
    names(end) != "" && names(end)[0] == '?' && forall i: nat | i < end :: names(i) == "" || names(i)[0] != '?'
  }

  /** What `from_json` is to make of a name: the first value of that name below `end`, or else the
      value as it was. */
  ghost predicate IsEnumRead(names: nat -> string, end: nat, str: string, value: nat, r: nat) {
    (r < end && names(r) == str && forall i: nat | i < r :: names(i) != str)
    || (r == value && forall i: nat | i < end :: names(i) != str)
  }

  /** `from_json`: the first value of that name below the first value without one. */
  method EnumFromJson(names: nat -> string, str: string, value: nat, ghost end: nat) returns (r: nat)
    requires NamesEnd(names, end)
    ensures IsEnumRead(names, end, str, value, r)
  {
    var i := 0;
    while true
      invariant i <= end && forall j: nat | j < i :: names(j) != str
      decreases end - i
    {
      if !IsName(names(i)) {
        return value;
      }
      if str == names(i) {
        return i;
      }
      i := i + 1;
    }
  }

  /** A value comes back, whatever was there before, exactly if it lies in the run of named values
      from 0 and no smaller one has its name. */
  lemma EnumRoundTrip(names: nat -> string, end: nat, v: nat)
    requires NamesEnd(names, end)
    ensures (forall was: nat, r: nat | IsEnumRead(names, end, EnumToJson(names, v), was, r) :: r == v) <==>
            v < end && forall i: nat | i < v :: names(i) != names(v)
  {
    assert EnumToJson(names, v) == names(v);
    if v < end && forall i: nat | i < v :: names(i) != names(v) {
    } else if exists i: nat :: i < end && names(i) == names(v) {
      var i := FirstOf(names, end, names(v));
      assert IsEnumRead(names, end, names(v), 0, i);
    } else {
      assert IsEnumRead(names, end, names(v), v + 1, v + 1);
    }
  }

  lemma FirstOf(names: nat -> string, end: nat, s: string) returns (i: nat)
    requires exists i: nat :: i < end && names(i) == s
    ensures i < end && names(i) == s && forall j: nat | j < i :: names(j) != s
  {
    i := 0;
    while names(i) != s
      invariant i < end && (forall j: nat | j < i :: names(j) != s)
      decreases end - i
    {
      i := i + 1;
    }
  }
}
