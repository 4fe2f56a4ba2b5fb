/** Routing a program's positional tokens.

    Which slot each token fills, and which must travel by name because the binder would misplace it. */
module TokenRouting {
  import opened Options
  import opened ArgumentBinding

  // ----- Slots -----

  predicate IsSlot(p: Param) {
    Capable(p) || p.cliPositional
  }

  /** The CLI positional-capable parameters, in declaration order. */
  function Slots(params: seq<Param>): (slots: seq<Param>)
    ensures forall p :: p in slots <==> p in params && IsSlot(p)
  {
    if params == [] then []
    else
      var n := |params| - 1;
      Slots(params[..n]) + if IsSlot(params[n]) then [params[n]] else []
  }

  predicate SomeCliPositional(slots: seq<Param>, from: nat) {
    exists j :: from <= j < |slots| && slots[j].cliPositional
  }

  /** A slot already supplied by name is passed over when a CLI-positional slot follows. */
  predicate Skipped(slots: seq<Param>, flagged: set<string>, i: nat)
    requires i < |slots|
  {
    slots[i].name in flagged && SomeCliPositional(slots, i + 1)
  }

  /** The slots open to tokens among the first n. */
  function OpenSlots(slots: seq<Param>, flagged: set<string>, n: nat): (open: seq<nat>)
    requires n <= |slots|
    ensures forall k :: 0 <= k < |open| ==> open[k] < n
    ensures |open| <= n
  {
    if n == 0 then []
    else OpenSlots(slots, flagged, n - 1) + if Skipped(slots, flagged, n - 1) then [] else [n - 1]
  }

  /** Whether a slot's token must travel by name. */
  predicate ByName(slots: seq<Param>, flagged: set<string>, i: nat)
    requires i < |slots|
  {
    slots[i].cliPositional || exists j :: 0 <= j < i && Skipped(slots, flagged, j)
  }

  datatype Route = Route(slot: Option<nat>, byName: bool)

  function RouteOf(slots: seq<Param>, flagged: set<string>, k: nat): Route {
    var open := OpenSlots(slots, flagged, |slots|);
    if k < |open| then Route(Some(open[k]), ByName(slots, flagged, open[k])) else Route(None, false)
  }

  /** Open slots come in order, and nothing but skipped slots is left between them. */
  lemma {:induction false} OpenSlotsAre(slots: seq<Param>, flagged: set<string>, n: nat)
    requires n <= |slots|
    ensures var open := OpenSlots(slots, flagged, n);
            && (forall k, l :: 0 <= k < l < |open| ==> open[k] < open[l])
            && (forall i :: 0 <= i < n ==> (i in open <==> !Skipped(slots, flagged, i)))
  {
    if n > 0 {
      OpenSlotsAre(slots, flagged, n - 1);
      var before, open := OpenSlots(slots, flagged, n - 1), OpenSlots(slots, flagged, n);
      assert forall i :: 0 <= i < n - 1 ==> (i in open <==> i in before);
    }
  }

  lemma {:induction false} OpenSlotsExtend(slots: seq<Param>, flagged: set<string>, m: nat, n: nat)
    requires m <= n <= |slots|
    ensures OpenSlots(slots, flagged, m) <= OpenSlots(slots, flagged, n)
    ensures (forall i :: m <= i < n ==> Skipped(slots, flagged, i)) ==> OpenSlots(slots, flagged, m) == OpenSlots(slots, flagged, n)
  {
    if m < n {
      OpenSlotsExtend(slots, flagged, m, n - 1);
    }
  }

  predicate SkippedBefore(slots: seq<Param>, flagged: set<string>, n: nat) {
    exists j :: 0 <= j < n && j < |slots| && Skipped(slots, flagged, j)
  }

  /** Where the walk along the slots stands once k tokens are paired. */
  ghost predicate At(slots: seq<Param>, flagged: set<string>, k: nat, position: nat, passedOver: bool) {
    && (if position <= |slots| then |OpenSlots(slots, flagged, position)| == k else |OpenSlots(slots, flagged, |slots|)| <= k)
    && (passedOver <==> SkippedBefore(slots, flagged, position))
  }

  lemma PassOver(slots: seq<Param>, flagged: set<string>, k: nat, position: nat, passedOver: bool)
    requires At(slots, flagged, k, position, passedOver) && position < |slots| && Skipped(slots, flagged, position)
    ensures At(slots, flagged, k, position + 1, true)
  {
  }

  lemma PairToken(slots: seq<Param>, flagged: set<string>, k: nat, position: nat, passedOver: bool)
    requires At(slots, flagged, k, position, passedOver) && (position < |slots| ==> !Skipped(slots, flagged, position))
    ensures At(slots, flagged, k + 1, position + 1, passedOver)
    ensures RouteOf(slots, flagged, k)
         == if position < |slots| then Route(Some(position), slots[position].cliPositional || passedOver) else Route(None, false)
  {
    if position < |slots| {
      OpenSlotsExtend(slots, flagged, position + 1, |slots|);
      assert OpenSlots(slots, flagged, position + 1)[k] == position;
    }
  }

  /** Pair each of `count` tokens with the slot it fills. */
  method TokenSlots(slots: seq<Param>, count: nat, flagged: set<string>) returns (routes: seq<Route>)
    ensures |routes| == count && forall k :: 0 <= k < count ==> routes[k] == RouteOf(slots, flagged, k)
  {
    routes := [];
    var position := 0;
    var passedOver := false;
    for k := 0 to count
      invariant |routes| == k && forall l :: 0 <= l < k ==> routes[l] == RouteOf(slots, flagged, l)
      invariant At(slots, flagged, k, position, passedOver)
    {
      while position < |slots| && slots[position].name in flagged && SomeCliPositional(slots, position + 1)
        invariant At(slots, flagged, k, position, passedOver)
      {
        PassOver(slots, flagged, k, position, passedOver);
        position := position + 1;
        passedOver := true;
      }
      PairToken(slots, flagged, k, position, passedOver);
      var slot := if position < |slots| then Some(position) else None;
      routes := routes + [Route(slot, slot.Some? && (slots[position].cliPositional || passedOver))];
      position := position + 1;
    }
  }

  // ----- Routing values -----

  /** A value an option supplies, typed on the command line or taken from the environment. */
  datatype Supplied<+V> = Supplied(value: V, typed: bool)

  function Flagged<V>(supplied: map<string, Supplied<V>>): set<string> {
    set name | name in supplied && supplied[name].typed
  }

  /** What parsing hands to the binder. */
  datatype Parsed<+V> = Arguments(positional: seq<V>, named: map<string, V>) | TooManyTokens

  function Routes(slots: seq<Param>, flagged: set<string>, count: nat): (routes: seq<Route>)
    ensures |routes| == count
  {
    seq(count, k requires 0 <= k < count => RouteOf(slots, flagged, k))
  }

  predicate AnySurplus(routes: seq<Route>) {
    exists k :: 0 <= k < |routes| && routes[k].slot.None?
  }

  predicate AnyByName(routes: seq<Route>) {
    exists k :: 0 <= k < |routes| && routes[k].byName
  }

  /** The names of the slots the first n routes fill. */
  function Filled(slots: seq<Param>, routes: seq<Route>, n: nat): set<string>
    requires n <= |routes| && forall k :: 0 <= k < n ==> routes[k].slot.Some? ==> routes[k].slot.value < |slots|
  {
    set k | 0 <= k < n && routes[k].slot.Some? :: slots[routes[k].slot.value].name
  }

  /** What options supply: an environment value yields to a positional token. */
  function FromOptions<V>(supplied: map<string, Supplied<V>>, filled: set<string>): map<string, V> {
    map name | name in supplied && (supplied[name].typed || name !in filled) :: supplied[name].value
  }

  function PositionalPart<V>(tokens: seq<V>, routes: seq<Route>, n: nat): seq<V>
    requires n <= |tokens| == |routes|
  {
    if n == 0 then [] else PositionalPart(tokens, routes, n - 1) + if routes[n - 1].byName then [] else [tokens[n - 1]]
  }

  function NamedPart<V>(slots: seq<Param>, tokens: seq<V>, routes: seq<Route>, n: nat, from: map<string, V>): map<string, V>
    requires n <= |tokens| == |routes|
  {
    if n == 0 then from
    else
      var named := NamedPart(slots, tokens, routes, n - 1, from);
      var route := routes[n - 1];
      if route.byName && route.slot.Some? && route.slot.value < |slots| then named[slots[route.slot.value].name := tokens[n - 1]] else named
  }

  function Parse<V>(params: seq<Param>, tokens: seq<V>, supplied: map<string, Supplied<V>>): Parsed<V> {
    var slots := Slots(params);
    var routes := Routes(slots, Flagged(supplied), |tokens|);
    if AnySurplus(routes) && AnyByName(routes) then TooManyTokens
    else
      Arguments(PositionalPart(tokens, routes, |tokens|),
                NamedPart(slots, tokens, routes, |tokens|, FromOptions(supplied, Filled(slots, routes, |tokens|))))
  }

  /** Route the tokens and the options' values. */
  method ParseTail<V>(params: seq<Param>, tokens: seq<V>, supplied: map<string, Supplied<V>>) returns (parsed: Parsed<V>)
    ensures parsed == Parse(params, tokens, supplied)
  {
    var slots := Slots(params);
    var routes := TokenSlots(slots, |tokens|, Flagged(supplied));
    assert routes == Routes(slots, Flagged(supplied), |tokens|);
    if AnySurplus(routes) && AnyByName(routes) {
      return TooManyTokens;
    }
    var filled := Filled(slots, routes, |routes|);
    var named := FromOptions(supplied, filled);
    var positional := [];
    for k := 0 to |tokens|
      invariant positional == PositionalPart(tokens, routes, k)
      invariant named == NamedPart(slots, tokens, routes, k, FromOptions(supplied, filled))
    {
      match routes[k].slot
      case None => positional := positional + [tokens[k]];
      case Some(i) =>
        if routes[k].byName {
          named := named[slots[i].name := tokens[k]];
        } else {
          positional := positional + [tokens[k]];
        }
    }
    parsed := Arguments(positional, named);
  }
}
