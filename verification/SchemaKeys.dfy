/** The `$defs` keys of hoisted instantiations: distinct instantiations always get distinct keys. */
module SchemaKeys {
  import opened SchemaTypes
  import opened SchemaPlan

  const DIGITS := "0123456789"

  function Numeral(n: nat): (s: string)
    ensures |s| > 0
  {
    if n < 10 then [DIGITS[n]] else Numeral(n / 10) + [DIGITS[n % 10]]
  }

  lemma {:induction false} NumeralInjective(m: nat, n: nat)
    requires Numeral(m) == Numeral(n)
    ensures m == n
    decreases m
  {
    assert Numeral(m)[|Numeral(m)| - 1] == DIGITS[m % 10];
    assert Numeral(n)[|Numeral(n)| - 1] == DIGITS[n % 10];
    assert forall d, e :: 0 <= d < e < 10 ==> DIGITS[d] != DIGITS[e];
    if m >= 10 && n >= 10 {
      assert Numeral(m / 10) == Numeral(m)[..|Numeral(m)| - 1] == Numeral(n / 10);
      NumeralInjective(m / 10, n / 10);
    }
  }

  /** The number a numeral stands for, read digit by digit. */
  function Reading(s: string): nat
    requires forall i :: 0 <= i < |s| ==> '0' <= s[i] <= '9'
  {
    if s == "" then 0 else 10 * Reading(s[..|s| - 1]) + (s[|s| - 1] as int - '0' as int)
  }

  /** A number's numeral is the one with no leading zero that reads as it. */
  lemma {:induction false} NumeralReads(n: nat)
    ensures forall i :: 0 <= i < |Numeral(n)| ==> '0' <= Numeral(n)[i] <= '9'
    ensures Reading(Numeral(n)) == n && (Numeral(n)[0] == '0' ==> n == 0 && |Numeral(n)| == 1)
  {
    assert forall d :: 0 <= d < 10 ==> DIGITS[d] as int == '0' as int + d;
    if n >= 10 {
      NumeralReads(n / 10);
      assert Numeral(n)[..|Numeral(n)| - 1] == Numeral(n / 10);
    } else {
      assert Numeral(n)[..0] == "";
    }
  }

  function Suffixed(key: string, n: nat): string {
    key + "_" + Numeral(n)
  }

  lemma SuffixedInjective(key: string, m: nat, n: nat)
    requires Suffixed(key, m) == Suffixed(key, n)
    ensures m == n
  {
    assert Suffixed(key, m)[|key| + 1..] == Numeral(m);
    assert Suffixed(key, n)[|key| + 1..] == Numeral(n);
    NumeralInjective(m, n);
  }

  /** An instantiation's display forms: bare, module-qualified, and whether it is declared in the entry module. */
  datatype Display = Display(bare: string, qualified: string, isEntry: bool)

  predicate SharesBareKey(order: seq<Type>, display: Type -> Display, i: nat)
    requires i < |order|
  {
    exists j :: 0 <= j < |order| && j != i && display(order[j]).bare == display(order[i]).bare
  }

  /** A bare key claimed twice is qualified, unless it is the entry module's. */
  function Candidate(order: seq<Type>, display: Type -> Display, i: nat): string
    requires i < |order|
  {
    var d := display(order[i]);
    if SharesBareKey(order, display, i) && !d.isEntry then d.qualified else d.bare
  }

  /** The key a candidate gets among the keys already used: itself, or its first free numbered variant. */
  ghost predicate KeyFor(candidate: string, used: set<string>, key: string) {
    && key !in used
    && if candidate !in used then key == candidate
       else exists n :: 2 <= n && key == Suffixed(candidate, n) && forall m :: 2 <= m < n ==> Suffixed(candidate, m) in used
  }

  /** Each key in turn is the one its candidate gets among the keys before it. */
  ghost predicate KeysFollow(order: seq<Type>, display: Type -> Display, given: seq<string>)
    requires |given| <= |order|
  {
    forall i: nat :: i < |given| ==> KeyFor(Candidate(order, display, i), Elements(given[..i]), given[i])
  }

  function KeySequence(order: seq<Type>, keys: map<Type, string>): (given: seq<string>)
    requires keys.Keys == Elements(order)
    ensures |given| == |order|
  {
    seq(|order|, i requires 0 <= i < |order| => keys[order[i]])
  }

  method FirstFreeKey(candidate: string, used: set<string>) returns (key: string)
    ensures KeyFor(candidate, used, key)
    ensures key !in used && (candidate !in used ==> key == candidate)
    ensures candidate in used ==> exists n :: 2 <= n && key == candidate + "_" + Numeral(n) && forall m :: 2 <= m < n ==> candidate + "_" + Numeral(m) in used
  {
    if candidate !in used {
      return candidate;
    }
    var suffix := 2;
    ghost var tried: set<string> := {};
    while Suffixed(candidate, suffix) in used
      invariant 2 <= suffix && forall m :: 2 <= m < suffix ==> Suffixed(candidate, m) in used
      invariant tried <= used && forall t :: t in tried ==> exists m :: 2 <= m < suffix && t == Suffixed(candidate, m)
      decreases used - tried
    {
      forall m | 2 <= m < suffix
        ensures Suffixed(candidate, m) != Suffixed(candidate, suffix)
      {
        if Suffixed(candidate, m) == Suffixed(candidate, suffix) {
          SuffixedInjective(candidate, m, suffix);
        }
      }
      tried := tried + {Suffixed(candidate, suffix)};
      suffix := suffix + 1;
    }
    key := Suffixed(candidate, suffix);
    assert key == candidate + "_" + Numeral(suffix);
    forall m | 2 <= m < suffix
      ensures candidate + "_" + Numeral(m) in used
    {
      assert Suffixed(candidate, m) in used;
    }
  }

  method CountBareKeys(order: seq<Type>, display: Type -> Display) returns (counts: map<string, nat>)
    ensures forall i: nat :: i < |order| ==>
                               display(order[i]).bare in counts && (counts[display(order[i]).bare] > 1 <==> SharesBareKey(order, display, i))
  {
    counts := map[];
    for n := 0 to |order|
      invariant forall key :: key in counts <==> exists i :: 0 <= i < n && display(order[i]).bare == key
      invariant forall key :: key in counts ==> counts[key] >= 1
      invariant forall key :: key in counts ==>
                  (counts[key] > 1 <==> exists i, j :: 0 <= i < j < n && display(order[i]).bare == display(order[j]).bare == key)
    {
      var key := display(order[n]).bare;
      counts := counts[key := (if key in counts then counts[key] else 0) + 1];
    }
    forall i: nat | i < |order|
      ensures counts[display(order[i]).bare] > 1 <==> SharesBareKey(order, display, i)
    {
      var key := display(order[i]).bare;
      if counts[key] > 1 {
        var a, b :| 0 <= a < b < |order| && display(order[a]).bare == display(order[b]).bare == key;
        assert a != i || b != i;
      }
    }
  }

  lemma KeysFollowOne(order: seq<Type>, display: Type -> Display, given: seq<string>, key: string)
    requires |given| < |order| && KeysFollow(order, display, given)
    requires KeyFor(Candidate(order, display, |given|), Elements(given), key)
    ensures KeysFollow(order, display, given + [key])
  {
    var longer := given + [key];
    forall i: nat | i < |longer|
      ensures KeyFor(Candidate(order, display, i), Elements(longer[..i]), longer[i])
    {
      assert longer[..i] == given[..i];
      assert given[..|given|] == given;
    }
  }

  /** The keys given to the first |given| instantiations are recorded. */
  ghost predicate Recorded(order: seq<Type>, given: seq<string>, keys: map<Type, string>, used: set<string>) {
    && |given| <= |order|
    && keys.Keys == Elements(order[..|given|]) && used == Elements(given)
    && forall i :: 0 <= i < |given| ==> keys[order[i]] == given[i]
  }

  lemma RecordOne(order: seq<Type>, given: seq<string>, keys: map<Type, string>, used: set<string>, key: string)
    requires Distinct(order) && Recorded(order, given, keys, used) && |given| < |order|
    ensures Recorded(order, given + [key], keys[order[|given|] := key], used + {key})
  {
    var handle := order[|given|];
    assert order[..|given| + 1] == order[..|given|] + [handle] && handle !in order[..|given|];
    ElementsAdd(order[..|given|], handle);
    ElementsAdd(given, key);
  }

  /** Assign each instantiation its key, in order. */
  method AssignDefsKeys(order: seq<Type>, display: Type -> Display) returns (keys: map<Type, string>)
    requires Distinct(order)
    ensures keys.Keys == Elements(order) && KeysFollow(order, display, KeySequence(order, keys))
    ensures forall a, b :: a in keys && b in keys && a != b ==> keys[a] != keys[b]
  {
    var counts := CountBareKeys(order, display);
    keys := map[];
    var used: set<string> := {};
    ghost var given: seq<string> := [];
    for n := 0 to |order|
      invariant |given| == n && Recorded(order, given, keys, used) && KeysFollow(order, display, given)
    {
      var handle := order[n];
      var d := display(handle);
      var candidate := if counts[d.bare] > 1 && !d.isEntry then d.qualified else d.bare;
      assert candidate == Candidate(order, display, n);
      var key := FirstFreeKey(candidate, used);
      KeysFollowOne(order, display, given, key);
      RecordOne(order, given, keys, used, key);
      keys := keys[handle := key];
      used := used + {key};
      given := given + [key];
    }
    assert order[..|order|] == order;
    assert KeySequence(order, keys) == given;
    KeysDistinct(order, display, keys);
  }

  lemma KeysDistinct(order: seq<Type>, display: Type -> Display, keys: map<Type, string>)
    requires keys.Keys == Elements(order) && KeysFollow(order, display, KeySequence(order, keys))
    ensures forall a, b :: a in keys && b in keys && a != b ==> keys[a] != keys[b]
  {
    var given := KeySequence(order, keys);
    forall a, b | a in keys && b in keys && a != b
      ensures keys[a] != keys[b]
    {
      var i :| 0 <= i < |order| && order[i] == a;
      var j :| 0 <= j < |order| && order[j] == b;
      if i < j {
        assert given[i] == given[..j][i] && given[i] in Elements(given[..j]);
      } else {
        assert given[j] == given[..i][j] && given[j] in Elements(given[..i]);
      }
    }
  }
}
