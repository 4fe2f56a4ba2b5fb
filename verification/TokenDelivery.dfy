/** Routing and binding together: every token reaches the slot it was routed to, every option its parameter. */
module TokenDelivery {
  import opened Options
  import opened ArgumentBinding
  import opened TokenRouting

  // The command line is refused exactly if there is a token too many or a parameter given twice.

  function Order(zone: Zone): nat {
    match zone
    case PositionalOnly => 0
    case Standard => 1
    case NamedOnly => 2
  }

  /** A program's parameters as declarations give them: named apart, positional-only before standard before
      named-only, and CLI-positional only where nothing else gives a zone. */
  ghost predicate Signature(params: seq<Param>) {
    && DistinctNames(params)
    && (forall i, j :: 0 <= i < j < |params| ==> Order(params[i].kind) <= Order(params[j].kind))
    && (forall i :: 0 <= i < |params| && params[i].cliPositional ==> params[i].kind == NamedOnly)
  }

  /** Options are of name-addressable parameters; those that are CLI-positional have no flag to be typed. */
  ghost predicate FromTheOptions<V>(params: seq<Param>, supplied: map<string, Supplied<V>>) {
    forall name :: name in supplied ==>
                     exists i :: 0 <= i < |params| && params[i].name == name && params[i].kind != PositionalOnly
                                 && (supplied[name].typed ==> !params[i].cliPositional)
  }

  // ----- Slots and parameters -----

  ghost predicate InZoneOrder(params: seq<Param>) {
    forall i, j :: 0 <= i < j < |params| ==> Order(params[i].kind) <= Order(params[j].kind)
  }

  lemma {:induction false} CapableFirst(params: seq<Param>, n: nat)
    requires InZoneOrder(params) && n <= |params|
    ensures forall i :: 0 <= i < n ==> (Capable(params[i]) <==> i < Rank(params, n))
  {
    if n > 0 {
      CapableFirst(params, n - 1);
      assert forall i :: 0 <= i < n - 1 ==> (Capable(params[n - 1]) ==> Capable(params[i]));
    }
  }

  lemma RankOfCapable(params: seq<Param>, i: nat)
    requires InZoneOrder(params) && i < |params|
    ensures Capable(params[i]) ==> Rank(params, i) == i
  {
    CapableFirst(params, i);
    if Rank(params, i) < i {
      assert !Capable(params[Rank(params, i)]);
    }
  }

  /** The first z slots are the first z parameters, the others CLI-positional. */
  ghost predicate LaidOut(params: seq<Param>, slots: seq<Param>, z: nat) {
    && z <= |slots| && z <= |params|
    && (forall i :: 0 <= i < z ==> slots[i] == params[i] && Capable(slots[i]))
    && (forall i :: z <= i < |slots| ==> slots[i].cliPositional)
  }

  lemma SlotsNext(params: seq<Param>, n: nat, before: seq<Param>)
    requires InZoneOrder(params) && 0 < n <= |params| && LaidOut(params, before, Rank(params, n - 1))
    requires Rank(params, n - 1) == n - 1 ==> |before| == n - 1
    ensures var slots := before + if IsSlot(params[n - 1]) then [params[n - 1]] else [];
            LaidOut(params, slots, Rank(params, n)) && (Rank(params, n) == n ==> |slots| == n)
  {
    RankOfCapable(params, n - 1);
  }

  lemma NoSlots(params: seq<Param>)
    ensures Slots(params[..0]) == [] && Rank(params, 0) == 0 && LaidOut(params, [], 0)
  {
  }

  lemma LastSlot(params: seq<Param>, n: nat)
    requires 0 < n <= |params|
    ensures Slots(params[..n]) == Slots(params[..n - 1]) + if IsSlot(params[n - 1]) then [params[n - 1]] else []
  {
    assert params[..n][..n - 1] == params[..n - 1] && params[..n][n - 1] == params[n - 1];
  }

  lemma {:induction false} SlotsOf(params: seq<Param>, n: nat)
    requires InZoneOrder(params) && n <= |params|
    ensures LaidOut(params, Slots(params[..n]), Rank(params, n))
    ensures Rank(params, n) == n ==> |Slots(params[..n])| == n
  {
    hide LaidOut, Slots, Rank, InZoneOrder;
    if n == 0 {
      NoSlots(params);
    } else {
      SlotsOf(params, n - 1);
      LastSlot(params, n);
      SlotsNext(params, n, Slots(params[..n - 1]));
    }
  }

  lemma {:induction false} SlotsDistinct(params: seq<Param>, n: nat)
    requires DistinctNames(params) && n <= |params|
    ensures DistinctNames(Slots(params[..n]))
  {
    if n > 0 {
      SlotsDistinct(params, n - 1);
      assert params[..n][..n - 1] == params[..n - 1];
      var before := Slots(params[..n - 1]);
      forall i | 0 <= i < |before|
        ensures before[i].name != params[n - 1].name
      {
        assert before[i] in params[..n - 1];
      }
    }
  }

  /** The slots are the positional-capable parameters, which come first, and then the CLI-positional ones. */
  lemma SlotsStart(params: seq<Param>)
    requires Signature(params)
    ensures DistinctNames(Slots(params)) && LaidOut(params, Slots(params), Rank(params, |params|))
  {
    assert params[..|params|] == params;
    SlotsOf(params, |params|);
    SlotsDistinct(params, |params|);
  }

  /** Whatever follows a slot that is filled by name is filled by name. */
  lemma ByNameStays(params: seq<Param>, flagged: set<string>)
    requires Signature(params)
    ensures forall i, j :: 0 <= i < j < |Slots(params)| && ByName(Slots(params), flagged, i) ==> ByName(Slots(params), flagged, j)
  {
    SlotsStart(params);
    assert forall i :: 0 <= i < |params| && Capable(params[i]) ==> !params[i].cliPositional;
  }

  /** A slot whose parameter was typed is not CLI-positional. */
  lemma FlaggedSlot<V>(params: seq<Param>, supplied: map<string, Supplied<V>>, i: nat)
    requires Signature(params) && FromTheOptions(params, supplied) && i < |Slots(params)| && Slots(params)[i].name in Flagged(supplied)
    ensures i < Rank(params, |params|) && Slots(params)[i].kind == Standard && !Slots(params)[i].cliPositional
  {
    SlotsStart(params);
    CapableFirst(params, |params|);
    var slots := Slots(params);
    assert slots[i] in slots;
    var j :| 0 <= j < |params| && params[j] == slots[i];
    var l :| 0 <= l < |params| && params[l].name == slots[i].name && params[l].kind != PositionalOnly
             && (supplied[slots[i].name].typed ==> !params[l].cliPositional);
    assert j == l;
  }

  // ----- Which tokens go where -----

  ghost predicate HasCli(params: seq<Param>) {
    |Slots(params)| > Rank(params, |params|)
  }

  /** With a CLI-positional slot every slot typed by name is passed over, without one none is. */
  lemma SkippedIff<V>(params: seq<Param>, supplied: map<string, Supplied<V>>)
    requires Signature(params) && FromTheOptions(params, supplied)
    ensures forall i :: 0 <= i < |Slots(params)| ==>
                          (Skipped(Slots(params), Flagged(supplied), i) <==> HasCli(params) && Slots(params)[i].name in Flagged(supplied))
  {
    SlotsStart(params);
    var slots, z := Slots(params), Rank(params, |params|);
    forall i | 0 <= i < z
      ensures !slots[i].cliPositional
    {
      assert slots[i] == params[i] && Capable(params[i]);
    }
    forall i | 0 <= i < |slots|
      ensures Skipped(slots, Flagged(supplied), i) <==> HasCli(params) && slots[i].name in Flagged(supplied)
    {
      if slots[i].name in Flagged(supplied) && HasCli(params) {
        FlaggedSlot(params, supplied, i);
        assert slots[|slots| - 1].cliPositional;
      }
    }
  }

  function Open(params: seq<Param>, flagged: set<string>): (open: seq<nat>)
    ensures forall k :: 0 <= k < |open| ==> open[k] < |Slots(params)|
  {
    OpenSlots(Slots(params), flagged, |Slots(params)|)
  }

  /** The first p of n tokens go by position, to the first p parameters; the others by name. */
  ghost predicate Leading(params: seq<Param>, flagged: set<string>, n: nat, p: nat) {
    && p <= n <= |Open(params, flagged)| && p <= Rank(params, |params|)
    && (forall k :: 0 <= k < p ==> Open(params, flagged)[k] == k && !ByName(Slots(params), flagged, Open(params, flagged)[k]))
    && (forall k :: p <= k < n ==> ByName(Slots(params), flagged, Open(params, flagged)[k]))
  }

  lemma OpenIncreases(params: seq<Param>, flagged: set<string>, k: nat, l: nat)
    requires k < l < |Open(params, flagged)|
    ensures Open(params, flagged)[k] < Open(params, flagged)[l]
  {
    OpenSlotsAre(Slots(params), flagged, |Slots(params)|);
  }

  lemma OpenIsSorted(params: seq<Param>, flagged: set<string>)
    ensures forall k, l :: 0 <= k < l < |Open(params, flagged)| ==> Open(params, flagged)[k] < Open(params, flagged)[l]
  {
    OpenSlotsAre(Slots(params), flagged, |Slots(params)|);
  }

  lemma OpenNotSkipped(params: seq<Param>, flagged: set<string>, k: nat)
    requires k < |Open(params, flagged)|
    ensures !Skipped(Slots(params), flagged, Open(params, flagged)[k])
  {
    OpenSlotsAre(Slots(params), flagged, |Slots(params)|);
    assert Open(params, flagged)[k] in Open(params, flagged);
  }

  /** Before the first skipped slot, tokens and slots have the same numbers. */
  lemma {:induction false} OpenIsIdentity(slots: seq<Param>, flagged: set<string>, n: nat)
    requires n <= |slots| && forall j :: 0 <= j < n ==> !Skipped(slots, flagged, j)
    ensures |OpenSlots(slots, flagged, n)| == n && forall k :: 0 <= k < n ==> OpenSlots(slots, flagged, n)[k] == k
  {
    if n > 0 {
      OpenIsIdentity(slots, flagged, n - 1);
    }
  }

  /** A slot before which none is skipped is the one of its own number among the open ones. */
  lemma OpenAtItself(params: seq<Param>, flagged: set<string>, i: nat)
    requires i < |Slots(params)| && forall j :: 0 <= j <= i ==> !Skipped(Slots(params), flagged, j)
    ensures i < |Open(params, flagged)| && Open(params, flagged)[i] == i
  {
    hide Skipped, Slots, OpenSlots;
    OpenIsIdentity(Slots(params), flagged, i + 1);
    OpenSlotsExtend(Slots(params), flagged, i + 1, |Slots(params)|);
    assert OpenSlots(Slots(params), flagged, i + 1)[i] == i;
  }

  /** A slot that is not CLI-positional is that of a parameter that can be given by position. */
  lemma SlotIsCapable(params: seq<Param>, i: nat)
    requires Signature(params) && i < |Slots(params)| && !Slots(params)[i].cliPositional
    ensures i < Rank(params, |params|)
  {
    hide Signature, Slots, Rank, Capable;
    SlotsStart(params);
  }

  lemma ByPositionIsIdentity(params: seq<Param>, flagged: set<string>, k: nat)
    requires Signature(params) && k < |Open(params, flagged)| && !ByName(Slots(params), flagged, Open(params, flagged)[k])
    ensures Open(params, flagged)[k] == k < Rank(params, |params|)
  {
    hide Signature, Slots, OpenSlots, Rank, Skipped, Open;
    var i := Open(params, flagged)[k];
    OpenNotSkipped(params, flagged, k);
    OpenAtItself(params, flagged, i);
    SlotIsCapable(params, i);
    OpenIsSorted(params, flagged);
  }

  lemma {:induction false} LeadingExists(params: seq<Param>, flagged: set<string>, n: nat)
    returns (p: nat)
    requires Signature(params) && n <= |Open(params, flagged)|
    ensures Leading(params, flagged, n, p)
  {
    p := 0;
    if n > 0 {
      p := LeadingExists(params, flagged, n - 1);
      if !ByName(Slots(params), flagged, Open(params, flagged)[n - 1]) {
        ByPositionIsIdentity(params, flagged, n - 1);
        if p < n - 1 {
          ByNameStays(params, flagged);
          OpenIncreases(params, flagged, p, n - 1);
          assert false;
        }
        p := n;
      }
    }
  }

  lemma {:induction false} PositionalPartIs<V>(params: seq<Param>, flagged: set<string>, tokens: seq<V>, p: nat, n: nat)
    requires n <= |tokens| && Leading(params, flagged, |tokens|, p)
    ensures PositionalPart(tokens, Routes(Slots(params), flagged, |tokens|), n) == tokens[..if n <= p then n else p]
  {
    if n > 0 {
      PositionalPartIs(params, flagged, tokens, p, n - 1);
    }
  }

  lemma {:induction false} PositionalPartAll<V>(tokens: seq<V>, routes: seq<Route>, n: nat)
    requires n <= |tokens| == |routes| && !AnyByName(routes)
    ensures PositionalPart(tokens, routes, n) == tokens[..n]
  {
    if n > 0 {
      PositionalPartAll(tokens, routes, n - 1);
    }
  }

  // ----- Named values -----

  /** The name of the slot a token fills. */
  function SlotName(params: seq<Param>, flagged: set<string>, k: nat): string
    requires k < |Open(params, flagged)|
  {
    Slots(params)[Open(params, flagged)[k]].name
  }

  lemma SlotNamesDiffer(params: seq<Param>, flagged: set<string>, k: nat, l: nat)
    requires Signature(params) && k < |Open(params, flagged)| && l < |Open(params, flagged)| && k != l
    ensures SlotName(params, flagged, k) != SlotName(params, flagged, l)
  {
    SlotsStart(params);
    if k < l {
      OpenIncreases(params, flagged, k, l);
    } else {
      OpenIncreases(params, flagged, l, k);
    }
  }

  /** Tokens from p to n have travelled by name, beside what was there. */
  ghost predicate NamedAre<V>(params: seq<Param>, flagged: set<string>, tokens: seq<V>, p: nat, n: nat, from: map<string, V>,
                              named: map<string, V>) {
    && n <= |Open(params, flagged)| && n <= |tokens|
    && (forall k :: p <= k < n ==> SlotName(params, flagged, k) in named && named[SlotName(params, flagged, k)] == tokens[k])
    && (forall name :: (name in named) <==> (name in from || TokenNamed(params, flagged, p, n, name)))
    && (forall name :: name in from && !TokenNamed(params, flagged, p, n, name) ==> name in named && named[name] == from[name])
  }

  ghost predicate TokenNamed(params: seq<Param>, flagged: set<string>, p: nat, n: nat, name: string)
    requires n <= |Open(params, flagged)|
  {
    exists k :: p <= k < n && SlotName(params, flagged, k) == name
  }

  lemma NothingNamed<V>(params: seq<Param>, flagged: set<string>, tokens: seq<V>, p: nat, from: map<string, V>)
    ensures NamedAre(params, flagged, tokens, p, 0, from, from)
  {
  }

  lemma {:induction false} NamedPartIs<V>(params: seq<Param>, flagged: set<string>, tokens: seq<V>, p: nat, n: nat,
                                          from: map<string, V>)
    requires Signature(params) && n <= |tokens| && Leading(params, flagged, |tokens|, p)
    ensures NamedAre(params, flagged, tokens, p, n, from, NamedPart(Slots(params), tokens, Routes(Slots(params), flagged, |tokens|), n, from))
  {
    hide NamedAre, Signature, Slots, OpenSlots;
    if n == 0 {
      NothingNamed(params, flagged, tokens, p, from);
    } else {
      NamedPartIs(params, flagged, tokens, p, n - 1, from);
      var before := NamedPart(Slots(params), tokens, Routes(Slots(params), flagged, |tokens|), n - 1, from);
      assert Routes(Slots(params), flagged, |tokens|)[n - 1]
          == Route(Some(Open(params, flagged)[n - 1]), ByName(Slots(params), flagged, Open(params, flagged)[n - 1]));
      NamedStep(params, flagged, tokens, p, n, from, before);
    }
  }

  lemma NamedStep<V>(params: seq<Param>, flagged: set<string>, tokens: seq<V>, p: nat, n: nat, from: map<string, V>,
                     before: map<string, V>)
    requires Signature(params) && 0 < n <= |tokens| && n <= |Open(params, flagged)| && NamedAre(params, flagged, tokens, p, n - 1, from, before)
    ensures NamedAre(params, flagged, tokens, p, n, from,
                     if p <= n - 1 then before[SlotName(params, flagged, n - 1) := tokens[n - 1]] else before)
  {
    forall k | 0 <= k < n - 1
      ensures SlotName(params, flagged, k) != SlotName(params, flagged, n - 1)
    {
      SlotNamesDiffer(params, flagged, k, n - 1);
    }
    forall name
      ensures TokenNamed(params, flagged, p, n, name)
          <==> TokenNamed(params, flagged, p, n - 1, name) || (p <= n - 1 && name == SlotName(params, flagged, n - 1))
    {
    }
  }

  // ----- Delivery -----

  /** What a parameter should be given: the token of its slot, else what its option supplies. */
  ghost predicate Given<V>(params: seq<Param>, tokens: seq<V>, supplied: map<string, Supplied<V>>, i: nat, got: Option<V>)
    requires i < |params| && |tokens| <= |Open(params, Flagged(supplied))|
  {
    var flagged := Flagged(supplied);
    && (forall k :: 0 <= k < |tokens| && SlotName(params, flagged, k) == params[i].name ==> got == Some(tokens[k]))
    && (!TokenNamed(params, flagged, 0, |tokens|, params[i].name) ==>
          got == if params[i].name in supplied then Some(supplied[params[i].name].value) else None)
  }

  /** No token's slot has been typed by name. */
  ghost predicate NoneTwice<V>(params: seq<Param>, tokens: seq<V>, supplied: map<string, Supplied<V>>)
    requires |tokens| <= |Open(params, Flagged(supplied))|
  {
    forall k :: 0 <= k < |tokens| ==> SlotName(params, Flagged(supplied), k) !in Flagged(supplied)
  }

  /** What parsing hands over when no token is left without a slot. */
  ghost predicate HandedOver<V>(params: seq<Param>, tokens: seq<V>, supplied: map<string, Supplied<V>>, p: nat,
                                positional: seq<V>, named: map<string, V>) {
    var flagged := Flagged(supplied);
    && Leading(params, flagged, |tokens|, p) && positional == tokens[..p]
    && exists filled :: FilledBy(params, flagged, |tokens|, filled)
                        && NamedAre(params, flagged, tokens, p, |tokens|, FromOptions(supplied, filled), named)
  }

  ghost predicate FilledBy(params: seq<Param>, flagged: set<string>, n: nat, filled: set<string>)
    requires n <= |Open(params, flagged)|
  {
    forall name :: name in filled <==> TokenNamed(params, flagged, 0, n, name)
  }

  lemma ParseHandsOver<V>(params: seq<Param>, tokens: seq<V>, supplied: map<string, Supplied<V>>)
    returns (p: nat)
    requires Signature(params) && |tokens| <= |Open(params, Flagged(supplied))|
    ensures var parsed := Parse(params, tokens, supplied);
            parsed.Arguments? && HandedOver(params, tokens, supplied, p, parsed.positional, parsed.named)
  {
    var slots, flagged := Slots(params), Flagged(supplied);
    var routes := Routes(slots, flagged, |tokens|);
    assert !AnySurplus(routes);
    p := LeadingExists(params, flagged, |tokens|);
    var filled := Filled(slots, routes, |tokens|);
    PositionalPartIs(params, flagged, tokens, p, |tokens|);
    NamedPartIs(params, flagged, tokens, p, |tokens|, FromOptions(supplied, filled));
    FilledNames(params, flagged, |tokens|);
  }

  lemma FilledNames(params: seq<Param>, flagged: set<string>, n: nat)
    requires n <= |Open(params, flagged)|
    ensures FilledBy(params, flagged, n, Filled(Slots(params), Routes(Slots(params), flagged, n), n))
  {
    var slots, routes := Slots(params), Routes(Slots(params), flagged, n);
    assert forall k :: 0 <= k < n ==> routes[k].slot == Some(Open(params, flagged)[k]);
    forall name
      ensures name in Filled(slots, routes, n) <==> TokenNamed(params, flagged, 0, n, name)
    {
      if TokenNamed(params, flagged, 0, n, name) {
        var k :| 0 <= k < n && SlotName(params, flagged, k) == name;
        assert slots[routes[k].slot.value].name == name;
      }
      if name in Filled(slots, routes, n) {
        var k :| 0 <= k < n && routes[k].slot.Some? && slots[routes[k].slot.value].name == name;
        assert SlotName(params, flagged, k) == name;
      }
    }
  }

  /** The parameters bound by position are the first p. */
  lemma ByPositionIff<V>(params: seq<Param>, positional: seq<V>, i: nat)
    requires Signature(params) && |positional| <= Rank(params, |params|) && i < |params|
    ensures ByPosition(params, positional, i) <==> i < |positional|
    ensures i < |positional| ==> Rank(params, i) == i
  {
    CapableFirst(params, |params|);
    RankOfCapable(params, i);
  }

  lemma LeadingNames(params: seq<Param>, flagged: set<string>, n: nat, p: nat, k: nat)
    requires Signature(params) && Leading(params, flagged, n, p) && k < p
    ensures k < |params| && SlotName(params, flagged, k) == params[k].name
  {
    SlotsStart(params);
  }

  /** A token that travels by name is for a parameter beyond those bound by position. */
  lemma TravelsBeyond(params: seq<Param>, flagged: set<string>, n: nat, p: nat, k: nat, i: nat)
    requires Signature(params) && Leading(params, flagged, n, p) && p <= k < n && i < |params|
    requires params[i].name == SlotName(params, flagged, k)
    ensures i >= p
  {
    if i < p {
      LeadingNames(params, flagged, n, p, i);
      SlotNamesDiffer(params, flagged, i, k);
    }
  }

  lemma SlotIsParam(params: seq<Param>, a: nat)
    returns (i: nat)
    requires a < |Slots(params)|
    ensures i < |params| && params[i] == Slots(params)[a]
  {
    assert Slots(params)[a] in Slots(params);
    i :| 0 <= i < |params| && params[i] == Slots(params)[a];
  }

  lemma ByNameIsAddressable<V>(params: seq<Param>, supplied: map<string, Supplied<V>>, a: nat)
    requires Signature(params) && FromTheOptions(params, supplied) && a < |Slots(params)| && ByName(Slots(params), Flagged(supplied), a)
    ensures Slots(params)[a].kind != PositionalOnly && HasCli(params)
  {
    var slots, flagged := Slots(params), Flagged(supplied);
    SlotsStart(params);
    SkippedIff(params, supplied);
    if slots[a].cliPositional {
      var i := SlotIsParam(params, a);
      CapableFirst(params, |params|);
    } else {
      var j :| 0 <= j < a && Skipped(slots, flagged, j);
      FlaggedSlot(params, supplied, j);
    }
  }

  /** A token that travels by name finds its parameter free. */
  lemma TravellerHasPlace<V>(params: seq<Param>, tokens: seq<V>, supplied: map<string, Supplied<V>>, p: nat, k: nat)
    requires Signature(params) && FromTheOptions(params, supplied) && Leading(params, Flagged(supplied), |tokens|, p) && p <= k < |tokens|
    ensures HasPlace(params, tokens[..p], SlotName(params, Flagged(supplied), k))
    ensures SlotName(params, Flagged(supplied), k) !in Flagged(supplied)
  {
    var flagged := Flagged(supplied);
    var a := Open(params, flagged)[k];
    ByNameIsAddressable(params, supplied, a);
    var i := SlotIsParam(params, a);
    TravelsBeyond(params, flagged, |tokens|, p, k, i);
    ByPositionIff(params, tokens[..p], i);
    OpenNotSkipped(params, flagged, k);
    SkippedIff(params, supplied);
  }

  /** An option's value finds its parameter free unless a token took it by position. */
  lemma OptionHasPlace<V>(params: seq<Param>, tokens: seq<V>, supplied: map<string, Supplied<V>>, p: nat, name: string)
    requires Signature(params) && FromTheOptions(params, supplied) && Leading(params, Flagged(supplied), |tokens|, p) && name in supplied
    ensures HasPlace(params, tokens[..p], name) <==> forall k :: 0 <= k < p ==> SlotName(params, Flagged(supplied), k) != name
  {
    var i :| 0 <= i < |params| && params[i].name == name && params[i].kind != PositionalOnly;
    ByPositionIff(params, tokens[..p], i);
    forall k | 0 <= k < p
      ensures SlotName(params, Flagged(supplied), k) == name <==> k == i
    {
      LeadingNames(params, Flagged(supplied), |tokens|, p, k);
    }
    assert forall j :: 0 <= j < |params| && params[j].name == name ==> j == i;
    assert i < p ==> SlotName(params, Flagged(supplied), i) == name;
    assert ByPosition(params, tokens[..p], i) <==> i < p;
  }

  lemma FitsIff<V>(params: seq<Param>, tokens: seq<V>, supplied: map<string, Supplied<V>>, p: nat, positional: seq<V>,
                   named: map<string, V>)
    requires Signature(params) && FromTheOptions(params, supplied) && HandedOver(params, tokens, supplied, p, positional, named)
    ensures Fits(params, positional, named) <==> NoneTwice(params, tokens, supplied)
  {
    var flagged := Flagged(supplied);
    var filled :| FilledBy(params, flagged, |tokens|, filled)
                  && NamedAre(params, flagged, tokens, p, |tokens|, FromOptions(supplied, filled), named);
    if NoneTwice(params, tokens, supplied) {
      forall name | name in named
        ensures HasPlace(params, positional, name)
      {
        NamedHasPlace(params, tokens, supplied, p, named, filled, name);
      }
    } else {
      var k :| 0 <= k < |tokens| && SlotName(params, flagged, k) in flagged;
      TypedTwiceHasNoPlace(params, tokens, supplied, p, k);
      assert SlotName(params, flagged, k) in FromOptions(supplied, filled);
    }
  }

  lemma NamedHasPlace<V>(params: seq<Param>, tokens: seq<V>, supplied: map<string, Supplied<V>>, p: nat, named: map<string, V>,
                         filled: set<string>, name: string)
    requires Signature(params) && FromTheOptions(params, supplied) && Leading(params, Flagged(supplied), |tokens|, p)
    requires FilledBy(params, Flagged(supplied), |tokens|, filled) && NoneTwice(params, tokens, supplied)
    requires NamedAre(params, Flagged(supplied), tokens, p, |tokens|, FromOptions(supplied, filled), named) && name in named
    ensures HasPlace(params, tokens[..p], name)
  {
    var flagged := Flagged(supplied);
    if TokenNamed(params, flagged, p, |tokens|, name) {
      var k :| p <= k < |tokens| && SlotName(params, flagged, k) == name;
      TravellerHasPlace(params, tokens, supplied, p, k);
    } else {
      assert name in FromOptions(supplied, filled);
      OptionHasPlace(params, tokens, supplied, p, name);
      assert !TokenNamed(params, flagged, 0, |tokens|, name);
    }
  }

  lemma TypedTwiceHasNoPlace<V>(params: seq<Param>, tokens: seq<V>, supplied: map<string, Supplied<V>>, p: nat, k: nat)
    requires Signature(params) && FromTheOptions(params, supplied) && Leading(params, Flagged(supplied), |tokens|, p)
    requires k < |tokens| && SlotName(params, Flagged(supplied), k) in Flagged(supplied)
    ensures !HasPlace(params, tokens[..p], SlotName(params, Flagged(supplied), k))
  {
    if k >= p {
      TravellerHasPlace(params, tokens, supplied, p, k);
      assert false;
    }
    OptionHasPlace(params, tokens, supplied, p, SlotName(params, Flagged(supplied), k));
  }

  lemma BoundAsGiven<V>(params: seq<Param>, tokens: seq<V>, supplied: map<string, Supplied<V>>, p: nat, positional: seq<V>,
                        named: map<string, V>, i: nat)
    requires Signature(params) && FromTheOptions(params, supplied) && HandedOver(params, tokens, supplied, p, positional, named)
    requires NoneTwice(params, tokens, supplied) && i < |params|
    ensures Given(params, tokens, supplied, i, BoundAt(params, positional, named, i))
  {
    var flagged, name := Flagged(supplied), params[i].name;
    var filled :| FilledBy(params, flagged, |tokens|, filled)
                  && NamedAre(params, flagged, tokens, p, |tokens|, FromOptions(supplied, filled), named);
    ByPositionIff(params, positional, i);
    if i < p {
      LeadingNames(params, flagged, |tokens|, p, i);
      forall k | 0 <= k < |tokens| && SlotName(params, flagged, k) == name
        ensures k == i
      {
        if k != i {
          SlotNamesDiffer(params, flagged, k, i);
        }
      }
      assert TokenNamed(params, flagged, 0, |tokens|, name);
    } else {
      forall k | 0 <= k < p
        ensures SlotName(params, flagged, k) != name
      {
        LeadingNames(params, flagged, |tokens|, p, k);
      }
      if TokenNamed(params, flagged, p, |tokens|, name) {
        var k :| p <= k < |tokens| && SlotName(params, flagged, k) == name;
        assert named[name] == tokens[k];
        assert TokenNamed(params, flagged, 0, |tokens|, name);
      } else {
        assert !TokenNamed(params, flagged, 0, |tokens|, name);
        assert name !in filled;
      }
    }
  }

  /** A token too many is refused, by parsing or by binding. */
  lemma SurplusRefused<V>(params: seq<Param>, tokens: seq<V>, supplied: map<string, Supplied<V>>)
    requires Signature(params) && FromTheOptions(params, supplied) && |tokens| > |Open(params, Flagged(supplied))|
    ensures var parsed := Parse(params, tokens, supplied);
            parsed.TooManyTokens? || |parsed.positional| > Rank(params, |params|)
  {
    var slots, flagged := Slots(params), Flagged(supplied);
    var routes, open := Routes(slots, flagged, |tokens|), Open(params, flagged);
    assert routes[|open|].slot.None?;
    assert forall k :: 0 <= k < |open| && ByName(slots, flagged, open[k]) ==> routes[k].byName;
    if !AnyByName(routes) {
      PositionalPartAll(tokens, routes, |tokens|);
      SlotsStart(params);
      SkippedIff(params, supplied);
      if HasCli(params) {
        CliRoute(params, supplied);
        assert false;
      } else {
        OpenIsIdentity(slots, flagged, |slots|);
      }
    }
  }

  /** The last CLI-positional slot is open. */
  lemma CliRoute<V>(params: seq<Param>, supplied: map<string, Supplied<V>>)
    requires Signature(params) && FromTheOptions(params, supplied) && HasCli(params)
    ensures exists k :: 0 <= k < |Open(params, Flagged(supplied))| && ByName(Slots(params), Flagged(supplied), Open(params, Flagged(supplied))[k])
  {
    var slots, flagged, open := Slots(params), Flagged(supplied), Open(params, Flagged(supplied));
    SlotsStart(params);
    var last := |slots| - 1;
    assert !Skipped(slots, flagged, last);
    OpenSlotsAre(slots, flagged, |slots|);
    assert last in open;
    var k :| 0 <= k < |open| && open[k] == last;
    assert ByName(slots, flagged, open[k]);
  }

  /** Parsing itself refuses a command line exactly if it has more tokens than open slots and some parameter is
      CLI-positional: then some token travels by name, and the binder could not tell. */
  lemma TooManyIff<V>(params: seq<Param>, tokens: seq<V>, supplied: map<string, Supplied<V>>)
    requires Signature(params) && FromTheOptions(params, supplied)
    ensures Parse(params, tokens, supplied).TooManyTokens? <==>
            |tokens| > |Open(params, Flagged(supplied))| && exists i :: 0 <= i < |params| && params[i].cliPositional
  {
    hide Skipped, SkippedBefore, ByName, Rank, Capable, OpenSlots, FromTheOptions, SomeCliPositional;
    var slots, flagged, open := Slots(params), Flagged(supplied), Open(params, Flagged(supplied));
    var routes := Routes(slots, flagged, |tokens|);
    if AnySurplus(routes) && AnyByName(routes) {
      var k :| 0 <= k < |routes| && routes[k].byName;
      ByNameIsAddressable(params, supplied, open[k]);
      SlotsStart(params);
      assert slots[|slots| - 1] in slots && slots[|slots| - 1].cliPositional;
    }
    if |tokens| > |open| && exists i :: 0 <= i < |params| && params[i].cliPositional {
      CliIsSlot(params);
      CliRoute(params, supplied);
      var k :| 0 <= k < |open| && ByName(slots, flagged, open[k]);
      assert routes[k].byName && routes[|open|].slot.None?;
    }
  }

  lemma CliIsSlot(params: seq<Param>)
    requires Signature(params) && exists i :: 0 <= i < |params| && params[i].cliPositional
    ensures HasCli(params)
  {
    SlotsStart(params);
    var i :| 0 <= i < |params| && params[i].cliPositional;
    assert params[i] in Slots(params) && !Capable(params[i]);
  }

  /** The command line is taken exactly if every token has a slot and no token's slot was also typed by name;
      then each token reaches its slot's parameter, and each option's value its own, a token before the
      environment. */
  lemma TokensReachTheirSlots<V>(params: seq<Param>, tokens: seq<V>, supplied: map<string, Supplied<V>>)
    requires Signature(params) && FromTheOptions(params, supplied)
    ensures var parsed := Parse(params, tokens, supplied);
            parsed.Arguments? && Fits(params, parsed.positional, parsed.named)
            <==> |tokens| <= |Open(params, Flagged(supplied))| && NoneTwice(params, tokens, supplied)
    ensures var parsed := Parse(params, tokens, supplied);
            parsed.Arguments? && Fits(params, parsed.positional, parsed.named) ==>
              |tokens| <= |Open(params, Flagged(supplied))|
              && forall i :: 0 <= i < |params| ==>
                               Given(params, tokens, supplied, i, BoundAt(params, parsed.positional, parsed.named, i))
  {
    if |tokens| > |Open(params, Flagged(supplied))| {
      SurplusRefused(params, tokens, supplied);
    } else {
      var p := ParseHandsOver(params, tokens, supplied);
      var parsed := Parse(params, tokens, supplied);
      FitsIff(params, tokens, supplied, p, parsed.positional, parsed.named);
      if NoneTwice(params, tokens, supplied) {
        forall i | 0 <= i < |params|
          ensures Given(params, tokens, supplied, i, BoundAt(params, parsed.positional, parsed.named, i))
        {
          BoundAsGiven(params, tokens, supplied, p, parsed.positional, parsed.named, i);
        }
      }
    }
  }
}
