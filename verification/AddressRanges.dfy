/** src/system_linux.cpp: the address ranges of a module, merged after sorting, and the selection of
    the addresses that fall in them. */
module AddressRanges {

  /** The addresses from `begin` up to but not including `end`. */
  datatype Range = Range(begin: nat, end: nat)

  predicate Sorted(s: seq<Range>) {
    forall i, j | 0 <= i < j < |s| :: s[i].begin <= s[j].begin
  }

  predicate Ordered(s: seq<Range>) {
    forall i | 0 <= i < |s| :: s[i].begin <= s[i].end
  }

  predicate Covers(s: seq<Range>, a: nat) {
    exists i :: 0 <= i < |s| && Within(s[i], a)
  }

  ghost predicate SameCover(s: seq<Range>, t: seq<Range>) {
    forall a: nat :: Covers(s, a) <==> Covers(t, a)
  }

  /** No range ends where the next begins. */
  predicate NoneTouch(s: seq<Range>) {
    forall i | 0 < i < |s| :: s[i].begin != s[i - 1].end
  }

  /** Neighbours `i - 1` and `i` made one. */
  function Join(s: seq<Range>, i: nat): (t: seq<Range>)
    requires 0 < i < |s|
    ensures |t| == |s| - 1
    ensures forall k | 0 <= k < |t| ::
      t[k] == if k < i - 1 then s[k] else if k == i - 1 then Range(s[i - 1].begin, s[i].end) else s[k + 1]
  {
    s[..i - 1] + [Range(s[i - 1].begin, s[i].end)] + s[i + 1..]
  }

  predicate Within(r: Range, a: nat) {
    r.begin <= a < r.end
  }

  /** The range after the join that an address is in, if range `k` before it is one. */
  lemma JoinWiden(s: seq<Range>, i: nat, k: nat, a: nat)
    requires 0 < i < |s| && Ordered(s) && s[i].begin == s[i - 1].end && k < |s| && Within(s[k], a)
    ensures Within(Join(s, i)[if k < i then k else k - 1], a)
  {
    var t, m := Join(s, i), if k < i then k else k - 1;
    assert t[m] == if m == i - 1 then Range(s[i - 1].begin, s[i].end) else s[k];
  }

  lemma JoinNarrow(s: seq<Range>, i: nat, k: nat, a: nat)
    requires 0 < i < |s| && s[i].begin == s[i - 1].end && k < |s| - 1 && Within(Join(s, i)[k], a)
    ensures Within(s[if k < i - 1 || (k == i - 1 && a < s[i - 1].end) then k else k + 1], a)
  {
    var t := Join(s, i);
    assert t[k] == if k < i - 1 then s[k] else if k == i - 1 then Range(s[i - 1].begin, s[i].end) else s[k + 1];
  }

  /** Joining two neighbours that touch covers the same addresses. */
  lemma JoinCovers(s: seq<Range>, i: nat)
    requires 0 < i < |s| && Ordered(s) && s[i].begin == s[i - 1].end
    ensures Ordered(Join(s, i)) && SameCover(s, Join(s, i))
  {
    var t := Join(s, i);
    hide Join;
    forall a: nat
      ensures Covers(s, a) <==> Covers(t, a)
    {
      if Covers(s, a) {
        var k :| 0 <= k < |s| && Within(s[k], a);
        JoinWiden(s, i, k, a);
      }
      if Covers(t, a) {
        var k :| 0 <= k < |t| && Within(t[k], a);
        JoinNarrow(s, i, k, a);
      }
    }
  }

  lemma JoinKeeps(s: seq<Range>, i: nat)
    requires 0 < i < |s| && Sorted(s) && NoneTouch(s[..i])
    ensures Sorted(Join(s, i)) && NoneTouch(Join(s, i)[..i])
  {
    var front := s[..i];
    assert forall k | 0 <= k < i :: front[k] == s[k];
    hide Join;
  }

  /** The merge of neighbours, in place. */
  method Merge(sorted: seq<Range>) returns (ranges: seq<Range>)
    requires Sorted(sorted)
    ensures Sorted(ranges) && NoneTouch(ranges)
    ensures Ordered(sorted) ==> Ordered(ranges) && SameCover(sorted, ranges)
  {
    hide Covers;
    ranges := sorted;
    if |ranges| > 1 {
      var it := 1;
      while it != |ranges|
        invariant 1 <= it <= |ranges| && Sorted(ranges) && NoneTouch(ranges[..it])
        invariant Ordered(sorted) ==> Ordered(ranges) && SameCover(sorted, ranges)
        decreases |ranges| - it
      {
        if ranges[it].begin == ranges[it - 1].end {
          JoinKeeps(ranges, it);
          if Ordered(sorted) {
            JoinCovers(ranges, it);
          }
          ghost var joined := Join(ranges, it);
          ranges := ranges[it - 1 := ranges[it - 1].(end := ranges[it].end)];
          ranges := ranges[..it] + ranges[it + 1..];
          assert ranges == joined;
        } else {
          TouchNext(ranges, it);
          it := it + 1;
        }
      }
      assert ranges[..it] == ranges;
    }
  }

  lemma TouchNext(s: seq<Range>, i: nat)
    requires 0 < i < |s| && NoneTouch(s[..i]) && s[i].begin != s[i - 1].end
    ensures NoneTouch(s[..i + 1])
  {
    var front, longer := s[..i], s[..i + 1];
    forall k | 0 < k < |longer|
      ensures longer[k].begin != longer[k - 1].end
    {
      assert k < i ==> front[k] == longer[k] && front[k - 1] == longer[k - 1];
    }
  }

  /** The addresses that `Covers` picks, by their indexes in ascending order. */
  function Picked(addresses: seq<nat>, ranges: seq<Range>): (s: seq<nat>)
    ensures forall k | 0 <= k < |s| :: s[k] < |addresses|
  {
    if addresses == [] then []
    else
      var n := |addresses| - 1;
      Picked(addresses[..n], ranges) + if Covers(ranges, addresses[n]) then [n] else []
  }

  method SelectAddresses(addresses: seq<nat>, ranges: seq<Range>) returns (indexes: seq<nat>)
    requires Sorted(ranges)
    ensures indexes == Picked(addresses, ranges)
  {
    indexes := [];
    for i := 0 to |addresses|
      invariant indexes == Picked(addresses[..i], ranges)
    {
      var address := addresses[i];
      var j := 0;
      var found := false;
      while j < |ranges|
        invariant 0 <= j <= |ranges| && !found
        invariant forall k | 0 <= k < j :: !Within(ranges[k], address)
      {
        assert j == 0 || ranges[j].begin >= ranges[j - 1].begin;
        if address >= ranges[j].begin && address < ranges[j].end {
          found := true;
          break;
        }
        j := j + 1;
      }
      assert found <==> Covers(ranges, address);
      if found {
        indexes := indexes + [i];
      }
      assert addresses[..i + 1][..i] == addresses[..i];
    }
    assert addresses[..|addresses|] == addresses;
  }

  /** The indexes picked are those of the covered addresses, each once, ascending. */
  lemma {:induction false} PickedAre(addresses: seq<nat>, ranges: seq<Range>)
    ensures var s := Picked(addresses, ranges);
      && (forall i, j | 0 <= i < j < |s| :: s[i] < s[j])
      && (forall k: nat | k < |addresses| :: k in s <==> Covers(ranges, addresses[k]))
  {
    if addresses != [] {
      PickedAre(addresses[..|addresses| - 1], ranges);
    }
  }

  lemma {:induction false} SameCoverSamePicked(addresses: seq<nat>, s: seq<Range>, t: seq<Range>)
    requires SameCover(s, t)
    ensures Picked(addresses, s) == Picked(addresses, t)
  {
    if addresses != [] {
      hide Covers;
      SameCoverSamePicked(addresses[..|addresses| - 1], s, t);
    }
  }

  lemma PermutationCovers(s: seq<Range>, t: seq<Range>)
    requires multiset(s) == multiset(t)
    ensures SameCover(s, t)
  {
    forall a: nat
      ensures Covers(s, a) <==> Covers(t, a)
    {
      if Covers(s, a) {
        var i :| 0 <= i < |s| && Within(s[i], a);
        assert s[i] in multiset(t);
      }
      if Covers(t, a) {
        var i :| 0 <= i < |t| && Within(t[i], a);
        assert t[i] in multiset(s);
      }
    }
  }

  /** Whatever sorting makes of the ranges, and merging of that, the same addresses are selected
      as on the ranges as they were read. */
  method SortedAndMergedSelection(original: seq<Range>, sorted: seq<Range>, addresses: seq<nat>)
    returns (indexes: seq<nat>)
    requires multiset(original) == multiset(sorted) && Sorted(sorted) && Ordered(original)
    ensures indexes == Picked(addresses, original)
  {
    PermutationCovers(original, sorted);
    forall i | 0 <= i < |sorted|
      ensures sorted[i].begin <= sorted[i].end
    {
      assert sorted[i] in multiset(original);
    }
    var ranges := Merge(sorted);
    indexes := SelectAddresses(addresses, ranges);
    SameCoverSamePicked(addresses, original, sorted);
    SameCoverSamePicked(addresses, sorted, ranges);
  }
}
