/** Google Test's in-place shuffle of part of a vector. The outcomes of the random
    generator are an argument, so the shuffle is a function of them, and the main
    results say that this function is a bijection between the sequences of in-range
    outcomes and the rearrangements of the range. */
module Shuffle {
  import opened Collections

  /** Whether `outcomes` can be what Generate(width), Generate(width - 1), ...,
      Generate(2) return: each is below its argument. */
  predicate InRange(outcomes: seq<nat>, width: nat) {
    if width < 2 then outcomes == []
    else outcomes != [] && outcomes[0] < width && InRange(outcomes[1..], width - 1)
  }

  function Swap<T>(s: seq<T>, i: nat, j: nat): seq<T>
    requires i < |s| && j < |s|
  {
    s[i := s[j]][j := s[i]]
  }

  /** What the countdown loop makes of s, starting with the given range width. */
  function Shuffled<T>(s: seq<T>, begin: nat, width: nat, outcomes: seq<nat>): seq<T>
    requires begin + width <= |s| && InRange(outcomes, width)
    decreases width
  {
    if width < 2 then s
    else Shuffled(Swap(s, begin + outcomes[0], begin + width - 1), begin, width - 1, outcomes[1..])
  }

  /** t is s with the positions in [begin, begin + width) rearranged. */
  ghost predicate Rearranges<T>(s: seq<T>, t: seq<T>, begin: nat, width: nat) {
    && |t| == |s|
    && (forall i | 0 <= i < |s| && !(begin <= i < begin + width) :: t[i] == s[i])
    && multiset(t) == multiset(s)
  }

  /** The shuffle as the source writes it. An invalid range aborts the program,
      which is the outcome `false` here. */
  method ShuffleRange<T>(outcomes: seq<nat>, begin: int, end: int, v: array<T>) returns (ok: bool)
    requires 0 <= begin <= end <= v.Length ==> InRange(outcomes, end - begin)
    modifies v
    ensures ok <==> 0 <= begin <= end <= v.Length
    ensures ok ==> v[..] == Shuffled(old(v[..]), begin, end - begin, outcomes)
    ensures !ok ==> v[..] == old(v[..])
  {
    var size := v.Length;
    if !(0 <= begin <= size) {
      return false;
    }
    if !(begin <= end <= size) {
      return false;
    }
    var rangeWidth := end - begin;
    var drawn := 0;
    while rangeWidth >= 2
      invariant 0 <= rangeWidth <= end - begin
      invariant 0 <= drawn <= |outcomes| && InRange(outcomes[drawn..], rangeWidth)
      invariant Shuffled(v[..], begin, rangeWidth, outcomes[drawn..])
             == Shuffled(old(v[..]), begin, end - begin, outcomes)
    {
      ghost var before := v[..];
      var lastInRange := begin + rangeWidth - 1;
      var selected := begin + outcomes[drawn];
      v[selected], v[lastInRange] := v[lastInRange], v[selected];
      assert v[..] == Swap(before, selected, lastInRange);
      assert outcomes[drawn..][1..] == outcomes[drawn + 1..];
      drawn := drawn + 1;
      rangeWidth := rangeWidth - 1;
    }
    return true;
  }

  /** What lies inside the range is then a permutation of what lay there before. */
  lemma InsideIsPermuted<T>(s: seq<T>, t: seq<T>, begin: nat, width: nat)
    requires begin + width <= |s| && Rearranges(s, t, begin, width)
    ensures multiset(t[begin..begin + width]) == multiset(s[begin..begin + width])
  {
    var end := begin + width;
    SplitMultiset(s, begin, end);
    SplitMultiset(t, begin, end);
    assert t[..begin] == s[..begin] && t[end..] == s[end..];
    Cancel(multiset(s[..begin]) + multiset(s[end..]), multiset(s[begin..end]), multiset(t[begin..end]));
  }

  lemma SplitMultiset<T>(s: seq<T>, i: nat, j: nat)
    requires i <= j <= |s|
    ensures multiset(s) == multiset(s[..i]) + multiset(s[j..]) + multiset(s[i..j])
  {
    assert s == s[..i] + s[i..j] + s[j..];
  }

  lemma Cancel<T>(a: multiset<T>, b: multiset<T>, c: multiset<T>)
    requires a + b == a + c
    ensures b == c
  {
    assert b == a + b - a;
  }

  lemma SwapRearranges<T>(s: seq<T>, begin: nat, width: nat, i: nat, j: nat)
    requires begin + width <= |s| && begin <= i < begin + width && begin <= j < begin + width
    ensures Rearranges(s, Swap(s, i, j), begin, width)
  {
  }

  /** Every shuffle leaves what lies outside the range untouched and permutes the inside. */
  lemma {:induction false} ShuffleRearranges<T>(s: seq<T>, begin: nat, width: nat, outcomes: seq<nat>)
    requires begin + width <= |s| && InRange(outcomes, width)
    ensures Rearranges(s, Shuffled(s, begin, width, outcomes), begin, width)
    decreases width
  {
    if width >= 2 {
      var swapped := Swap(s, begin + outcomes[0], begin + width - 1);
      SwapRearranges(s, begin, width, begin + outcomes[0], begin + width - 1);
      ShuffleRearranges(swapped, begin, width - 1, outcomes[1..]);
    }
  }

  lemma SwapKeepsDistinct<T>(s: seq<T>, i: nat, j: nat)
    requires Distinct(s) && i < |s| && j < |s|
    ensures Distinct(Swap(s, i, j))
  {
  }

  /** The first outcome decides which element ends up last in the range. */
  lemma FirstOutcomeIsLast<T>(s: seq<T>, begin: nat, width: nat, outcomes: seq<nat>)
    requires 2 <= width && begin + width <= |s| && InRange(outcomes, width)
    ensures |Shuffled(s, begin, width, outcomes)| == |s|
    ensures Shuffled(s, begin, width, outcomes)[begin + width - 1] == s[begin + outcomes[0]]
  {
    var swapped := Swap(s, begin + outcomes[0], begin + width - 1);
    ShuffleRearranges(swapped, begin, width - 1, outcomes[1..]);
  }

  /** Different outcomes give different rearrangements. */
  lemma {:induction false} ShuffleIsInjective<T>(s: seq<T>, begin: nat, width: nat, x: seq<nat>, y: seq<nat>)
    requires begin + width <= |s| && InRange(x, width) && InRange(y, width) && Distinct(s)
    requires Shuffled(s, begin, width, x) == Shuffled(s, begin, width, y)
    ensures x == y
    decreases width
  {
    if width >= 2 {
      FirstOutcomeIsLast(s, begin, width, x);
      FirstOutcomeIsLast(s, begin, width, y);
      assert x[0] == y[0] by {
        assert s[begin + x[0]] == s[begin + y[0]];
      }
      SwapKeepsDistinct(s, begin + x[0], begin + width - 1);
      ShuffleIsInjective(Swap(s, begin + x[0], begin + width - 1), begin, width - 1, x[1..], y[1..]);
      assert x == [x[0]] + x[1..] && y == [y[0]] + y[1..];
    }
  }

  /** Every rearrangement of the range is the shuffle for some outcomes. */
  lemma {:induction false} ShuffleIsSurjective<T>(s: seq<T>, t: seq<T>, begin: nat, width: nat)
    returns (outcomes: seq<nat>)
    requires begin + width <= |s| && Rearranges(s, t, begin, width)
    ensures InRange(outcomes, width) && Shuffled(s, begin, width, outcomes) == t
    decreases width
  {
    if width < 2 {
      NarrowRange(s, t, begin, width);
      return [];
    }
    var k := BringToLast(s, t, begin, width);
    var rest := ShuffleIsSurjective(Swap(s, begin + k, begin + width - 1), t, begin, width - 1);
    FirstOutcome(s, begin, width, k, rest);
    return [k] + rest;
  }

  lemma FirstOutcome<T>(s: seq<T>, begin: nat, width: nat, k: nat, rest: seq<nat>)
    requires 2 <= width && begin + width <= |s| && k < width && InRange(rest, width - 1)
    ensures InRange([k] + rest, width)
    ensures Shuffled(s, begin, width, [k] + rest)
         == Shuffled(Swap(s, begin + k, begin + width - 1), begin, width - 1, rest)
  {
    assert ([k] + rest)[1..] == rest;
  }

  lemma BringToLast<T>(s: seq<T>, t: seq<T>, begin: nat, width: nat) returns (k: nat)
    requires 1 <= width && begin + width <= |s| && Rearranges(s, t, begin, width)
    ensures k < width && Rearranges(Swap(s, begin + k, begin + width - 1), t, begin, width - 1)
  {
    k := PositionOf(s, t, begin, width);
    SwapRearranges(s, begin, width, begin + k, begin + width - 1);
  }

  lemma PositionOf<T>(s: seq<T>, t: seq<T>, begin: nat, width: nat) returns (k: nat)
    requires 1 <= width && begin + width <= |s| && Rearranges(s, t, begin, width)
    ensures k < width && s[begin + k] == t[begin + width - 1]
  {
    InsideIsPermuted(s, t, begin, width);
    var x := t[begin + width - 1];
    assert t[begin..begin + width][width - 1] == x;
    assert x in multiset(s[begin..begin + width]);
    k :| 0 <= k < width && s[begin..begin + width][k] == x;
  }

  lemma NarrowRange<T>(s: seq<T>, t: seq<T>, begin: nat, width: nat)
    requires width < 2 && begin + width <= |s| && Rearranges(s, t, begin, width)
    ensures s == t
  {
    if width == 1 {
      var k := PositionOf(s, t, begin, width);
    }
  }

  /** The two together: over distinct elements, every rearrangement of [begin, end)
      comes from exactly one sequence of outcomes, and nothing else comes from any. */
  lemma ShuffleIsBijection<T>(s: seq<T>, t: seq<T>, begin: nat, width: nat)
    requires begin + width <= |s| && Distinct(s)
    ensures Rearranges(s, t, begin, width) <==>
            exists x :: InRange(x, width) && Shuffled(s, begin, width, x) == t
    ensures forall x, y | InRange(x, width) && InRange(y, width)
              && Shuffled(s, begin, width, x) == t == Shuffled(s, begin, width, y) :: x == y
  {
    if Rearranges(s, t, begin, width) {
      var x := ShuffleIsSurjective(s, t, begin, width);
    }
    forall x | InRange(x, width) && Shuffled(s, begin, width, x) == t
      ensures Rearranges(s, t, begin, width)
    {
      ShuffleRearranges(s, begin, width, x);
    }
    forall x, y | InRange(x, width) && InRange(y, width)
        && Shuffled(s, begin, width, x) == t == Shuffled(s, begin, width, y)
      ensures x == y
    {
      ShuffleIsInjective(s, begin, width, x, y);
    }
  }
}
