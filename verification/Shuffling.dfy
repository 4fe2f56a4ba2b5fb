/** Shuffling an array in place: choices and orders of distinct elements correspond one to one. */
module Shuffling {

  // So fair choices shuffle fairly.

  function Swapped<T>(s: seq<T>, i: nat, j: nat): (t: seq<T>)
    requires i < |s| && j < |s|
    ensures |t| == |s|
  {
    s[i := s[j]][j := s[i]]
  }

  /** One choice for each index from the last down to 1, none beyond its index. */
  ghost predicate IsChoice(n: nat, choices: seq<nat>) {
    && |choices| == (if n == 0 then 0 else n - 1)
    && forall k :: 0 <= k < |choices| ==> choices[k] <= n - 1 - k
  }

  /** The last element is chosen first, from all; the rest are shuffled by the rest of the choices. */
  function Shuffled<T>(s: seq<T>, choices: seq<nat>): (t: seq<T>)
    requires IsChoice(|s|, choices)
    ensures |t| == |s|
    decreases |s|
  {
    if |s| <= 1 then s
    else
      var swapped := Swapped(s, |s| - 1, choices[0]);
      Shuffled(swapped[..|s| - 1], choices[1..]) + [swapped[|s| - 1]]
  }

  /** Two places' elements are exchanged, and nothing else. */
  predicate Exchanged<T(==)>(before: seq<T>, after: seq<T>, i: nat, j: nat) {
    && j <= i < |before| == |after| && after[i] == before[j] && after[j] == before[i]
    && forall m :: 0 <= m < |before| && m != i && m != j ==> after[m] == before[m]
  }

  /** From the last index down, each element is exchanged with the one chosen, at or before it. */
  ghost predicate Exchanges<T(!new)>(s: seq<T>, choices: seq<nat>, states: seq<seq<T>>) {
    && |choices| <= |s| && |states| == |choices| + 1 && states[0] == s
    && forall k {:trigger choices[k]} :: 0 <= k < |choices| ==> k < |s| && Exchanged(states[k], states[k + 1], |s| - 1 - k, choices[k])
  }

  function Followed<T>(states: seq<seq<T>>, last: T): (followed: seq<seq<T>>)
    ensures |followed| == |states|
  {
    seq(|states|, k requires 0 <= k < |states| => states[k] + [last])
  }

  /** Shuffling is that one exchange after the other. */
  lemma {:induction false} ShuffledExchanges<T(!new)>(s: seq<T>, choices: seq<nat>) returns (states: seq<seq<T>>)
    requires IsChoice(|s|, choices)
    ensures Exchanges(s, choices, states) && states[|choices|] == Shuffled(s, choices)
    decreases |s|
  {
    states := [s];
    if |s| > 1 {
      var n := |s| - 1;
      var swapped := Swapped(s, n, choices[0]);
      var rest := ShuffledExchanges(swapped[..n], choices[1..]);
      var after := Followed(rest, swapped[n]);
      assert after[0] == swapped;
      states := states + after;
      forall k | 0 <= k < |choices|
        ensures Exchanged(states[k], states[k + 1], n - k, choices[k])
      {
        if k > 0 {
          assert Exchanged(rest[k - 1], rest[k], n - 1 - (k - 1), choices[1..][k - 1]);
        }
      }
    }
  }

  lemma SwappedKeepsElements<T>(s: seq<T>, i: nat, j: nat)
    requires i < |s| && j < |s|
    ensures multiset(Swapped(s, i, j)) == multiset(s)
  {
  }

  /** Shuffling keeps every element as often as it occurs. */
  lemma {:induction false} ShuffledKeepsElements<T>(s: seq<T>, choices: seq<nat>)
    requires IsChoice(|s|, choices)
    ensures multiset(Shuffled(s, choices)) == multiset(s)
    decreases |s|
  {
    if |s| > 1 {
      var swapped := Swapped(s, |s| - 1, choices[0]);
      SwappedKeepsElements(s, |s| - 1, choices[0]);
      ShuffledKeepsElements(swapped[..|s| - 1], choices[1..]);
      assert swapped == swapped[..|s| - 1] + [swapped[|s| - 1]];
    }
  }

  predicate Distinct<T(==)>(s: seq<T>) {
    forall i, j :: 0 <= i < j < |s| ==> s[i] != s[j]
  }

  /** With distinct elements, different choices give different orders. */
  lemma {:induction false} ShuffledInjective<T>(s: seq<T>, a: seq<nat>, b: seq<nat>)
    requires Distinct(s) && IsChoice(|s|, a) && IsChoice(|s|, b) && Shuffled(s, a) == Shuffled(s, b)
    ensures a == b
    decreases |s|
  {
    if |s| > 1 {
      var n := |s| - 1;
      var swappedA, swappedB := Swapped(s, n, a[0]), Swapped(s, n, b[0]);
      assert Shuffled(s, a)[n] == swappedA[n] == s[a[0]];
      assert Shuffled(s, b)[n] == swappedB[n] == s[b[0]];
      assert a[0] == b[0];
      assert Shuffled(s, a)[..n] == Shuffled(swappedA[..n], a[1..]);
      assert Shuffled(s, b)[..n] == Shuffled(swappedB[..n], b[1..]);
      ShuffledInjective(swappedA[..n], a[1..], b[1..]);
      assert a == [a[0]] + a[1..] && b == [b[0]] + b[1..];
    }
  }

  lemma SameInit<T>(s: seq<T>, t: seq<T>)
    requires |s| == |t| > 0 && multiset(s) == multiset(t) && s[|s| - 1] == t[|t| - 1]
    ensures multiset(s[..|s| - 1]) == multiset(t[..|t| - 1])
  {
    assert s == s[..|s| - 1] + [s[|s| - 1]] && t == t[..|t| - 1] + [t[|t| - 1]];
    assert multiset(s[..|s| - 1]) == multiset(s) - multiset{s[|s| - 1]};
  }

  lemma {:induction false} SameSize<T>(s: seq<T>, t: seq<T>)
    requires multiset(s) == multiset(t)
    ensures |s| == |t|
  {
    assert |multiset(s)| == |s| && |multiset(t)| == |t|;
  }

  lemma LastOccurs<T>(s: seq<T>, p: seq<T>)
    returns (j: nat)
    requires multiset(p) == multiset(s) && |p| > 0
    ensures j < |s| && s[j] == p[|p| - 1]
  {
    assert p[|p| - 1] in multiset(s);
    j :| 0 <= j < |s| && s[j] == p[|p| - 1];
  }

  /** Choosing what an order ends with leaves the rest of the order to the rest of the elements. */
  lemma ChooseLast<T>(s: seq<T>, p: seq<T>)
    returns (j: nat)
    requires multiset(p) == multiset(s) && |p| == |s| > 0
    ensures j < |s| && s[j] == p[|s| - 1]
    ensures multiset(Swapped(s, |s| - 1, j)[..|s| - 1]) == multiset(p[..|s| - 1])
  {
    j := LastOccurs(s, p);
    SwappedKeepsElements(s, |s| - 1, j);
    SameInit(Swapped(s, |s| - 1, j), p);
  }

  lemma SameSingle<T>(s: seq<T>, p: seq<T>)
    requires multiset(p) == multiset(s) && |p| == |s| <= 1
    ensures p == s
  {
    if |s| == 1 {
      var j := LastOccurs(s, p);
    }
  }

  lemma ShuffledCons<T>(s: seq<T>, p: seq<T>, j: nat, rest: seq<nat>)
    requires |s| == |p| > 1 && j < |s| && s[j] == p[|s| - 1] && IsChoice(|s| - 1, rest)
    requires Shuffled(Swapped(s, |s| - 1, j)[..|s| - 1], rest) == p[..|s| - 1]
    ensures IsChoice(|s|, [j] + rest) && Shuffled(s, [j] + rest) == p
  {
    assert ([j] + rest)[1..] == rest;
    assert p == p[..|s| - 1] + [p[|s| - 1]];
  }

  /** Every order of the elements, distinct or not, comes from some choices. */
  lemma {:induction false} ShuffledSurjective<T>(s: seq<T>, p: seq<T>)
    returns (choices: seq<nat>)
    requires multiset(p) == multiset(s)
    ensures IsChoice(|s|, choices) && Shuffled(s, choices) == p
    decreases |s|
  {
    SameSize(s, p);
    if |s| <= 1 {
      SameSingle(s, p);
      choices := [];
    } else {
      var j := ChooseLast(s, p);
      var rest := ShuffledSurjective(Swapped(s, |s| - 1, j)[..|s| - 1], p[..|s| - 1]);
      ShuffledCons(s, p, j, rest);
      choices := [j] + rest;
    }
  }

  /** Choices and orders of distinct elements correspond one to one. */
  lemma ShuffleIsABijection<T>(s: seq<T>, p: seq<T>)
    requires Distinct(s)
    ensures multiset(p) == multiset(s) <==> exists choices :: IsChoice(|s|, choices) && Shuffled(s, choices) == p
    ensures forall a, b :: IsChoice(|s|, a) && IsChoice(|s|, b) && Shuffled(s, a) == p && Shuffled(s, b) == p ==> a == b
  {
    if multiset(p) == multiset(s) {
      var choices := ShuffledSurjective(s, p);
    }
    forall choices | IsChoice(|s|, choices) && Shuffled(s, choices) == p
      ensures multiset(p) == multiset(s)
    {
      ShuffledKeepsElements(s, choices);
    }
    forall a, b | IsChoice(|s|, a) && IsChoice(|s|, b) && Shuffled(s, a) == p && Shuffled(s, b) == p
      ensures a == b
    {
      ShuffledInjective(s, a, b);
    }
  }

  /** Whether shuffling what is left of an array gives the result, the elements from `left` on being placed. */
  ghost predicate Remains<T>(values: seq<T>, left: nat, choices: seq<nat>, result: seq<T>) {
    left <= |values| && IsChoice(left, choices) && Shuffled(values[..left], choices) + values[left..] == result
  }

  lemma RemainsStep<T>(values: seq<T>, left: nat, choices: seq<nat>, result: seq<T>)
    requires Remains(values, left, choices, result) && left > 1
    ensures choices[0] < left <= |values| && Remains(Swapped(values, left - 1, choices[0]), left - 1, choices[1..], result)
  {
    var swapped := Swapped(values, left - 1, choices[0]);
    assert swapped[..left] == Swapped(values[..left], left - 1, choices[0]);
    assert swapped[..left][..left - 1] == swapped[..left - 1];
    assert swapped[left - 1..] == [swapped[left - 1]] + values[left..];
  }

  /** `choices` are what the random source draws, in order. */
  method ShuffleInPlace<T>(values: array<T>, choices: seq<nat>)
    requires IsChoice(values.Length, choices)
    modifies values
    ensures values[..] == Shuffled(old(values[..]), choices)
  {
    ghost var result := Shuffled(values[..], choices);
    if values.Length == 0 {
      return;
    }
    var index, drawn := values.Length - 1, 0;
    assert values[..][..index + 1] == values[..] && choices[drawn..] == choices;
    while index > 0
      invariant 0 <= index < values.Length && drawn == values.Length - 1 - index
      invariant Remains(values[..], index + 1, choices[drawn..], result)
    {
      RemainsStep(values[..], index + 1, choices[drawn..], result);
      var selected := choices[drawn];
      ghost var before := values[..];
      values[index], values[selected] := values[selected], values[index];
      assert values[..] == Swapped(before, index, selected);
      assert choices[drawn..][1..] == choices[drawn + 1..];
      index, drawn := index - 1, drawn + 1;
    }
    assert values[..] == values[..][..1] + values[..][1..];
  }
}
