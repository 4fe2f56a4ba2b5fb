/** Binding positional and named arguments to a parameter list.

    Positional ones fill the positional-capable parameters from the left, named ones go where their name says. */
module ArgumentBinding {
  import opened Options

  datatype Zone = PositionalOnly | Standard | NamedOnly

  /** A program parameter; one that is CLI-positional takes a positional token though it is named-only. */
  datatype Param = Param(name: string, kind: Zone, cliPositional: bool, hasDefault: bool)

  /** A named argument, in source order among the others. */
  datatype Argument<+V> = Argument(name: string, value: V)

  /** What is wrong, and with which argument. */
  datatype BindError =
    | TooManyPositional(at: nat)
    | PositionalInNamedOnly(at: nat)
    | UnknownName(named: nat)
    | PositionalOnlyByName(named: nat)
    | Duplicate(named: nat)
    | MissingRequired(param: nat)

  datatype BindResult<+V> = Bound(values: seq<Option<V>>) | Failed(error: BindError)

  predicate Capable(p: Param) {
    p.kind != NamedOnly
  }

  /** How many of the first n parameters take positional arguments. */
  function Rank(params: seq<Param>, n: nat): (r: nat)
    requires n <= |params|
    ensures r <= n
  {
    if n == 0 then 0 else Rank(params, n - 1) + if Capable(params[n - 1]) then 1 else 0
  }

  lemma {:induction false} RankGrows(params: seq<Param>, m: nat, n: nat)
    requires m <= n <= |params|
    ensures Rank(params, m) <= Rank(params, n)
    ensures m < n && Capable(params[m]) ==> Rank(params, m) < Rank(params, n)
  {
    if m < n {
      RankGrows(params, m, n - 1);
    }
  }

  predicate DistinctNames(params: seq<Param>) {
    forall i, j :: 0 <= i < j < |params| ==> params[i].name != params[j].name
  }

  /** Whether a parameter is filled by position, and so what it is bound to. */
  predicate ByPosition<V>(params: seq<Param>, positional: seq<V>, i: nat)
    requires i < |params|
  {
    Capable(params[i]) && Rank(params, i) < |positional|
  }

  function BoundAt<V>(params: seq<Param>, positional: seq<V>, named: map<string, V>, i: nat): Option<V>
    requires i < |params|
  {
    if ByPosition(params, positional, i) then Some(positional[Rank(params, i)])
    else if params[i].name in named then Some(named[params[i].name])
    else None
  }

  /** Whether a named argument has a parameter of its own to go to. */
  ghost predicate HasPlace<V>(params: seq<Param>, positional: seq<V>, name: string) {
    exists i :: 0 <= i < |params| && params[i].name == name && params[i].kind != PositionalOnly && !ByPosition(params, positional, i)
  }

  ghost predicate Fits<V>(params: seq<Param>, positional: seq<V>, named: map<string, V>) {
    && |positional| <= Rank(params, |params|)
    && forall name :: name in named ==> HasPlace(params, positional, name)
  }

  /** What has been bound after the first `count` positional arguments, all before parameter `at`. */
  ghost predicate Placed<V>(params: seq<Param>, positional: seq<V>, count: nat, at: nat, bound: seq<Option<V>>) {
    && |bound| == |params| && at <= |params| && count <= |positional| && Rank(params, at) == count
    && forall i :: 0 <= i < |params| ==>
                     bound[i] == if i < at && Capable(params[i]) && Rank(params, i) < count then Some(positional[Rank(params, i)]) else None
  }

  lemma PlaceNext<V>(params: seq<Param>, positional: seq<V>, count: nat, at: nat, bound: seq<Option<V>>)
    requires Placed(params, positional, count, at, bound) && at < |params|
    ensures !Capable(params[at]) ==> Placed(params, positional, count, at + 1, bound)
    ensures Capable(params[at]) && count < |positional| ==>
              Placed(params, positional, count + 1, at + 1, bound[at := Some(positional[count])])
  {
    forall i | 0 <= i < at && Capable(params[i])
      ensures Rank(params, i) < count
    {
      RankGrows(params, i, at);
    }
  }

  lemma PlacedIsBound<V>(params: seq<Param>, positional: seq<V>, at: nat, bound: seq<Option<V>>)
    requires Placed(params, positional, |positional|, at, bound)
    ensures forall i :: 0 <= i < |params| ==> bound[i] == BoundAt(params, positional, map[], i)
    ensures forall i :: 0 <= i < |params| ==> (bound[i].Some? <==> ByPosition(params, positional, i))
    ensures |positional| <= Rank(params, |params|)
  {
    RankGrows(params, at, |params|);
    forall i | at <= i < |params|
      ensures Rank(params, i) >= |positional|
    {
      RankGrows(params, at, i);
    }
  }

  /** Named arguments, by name; no name is given twice. */
  function ByNames<V>(named: seq<Argument<V>>): map<string, V> {
    if named == [] then map[] else ByNames(named[..|named| - 1])[named[|named| - 1].name := named[|named| - 1].value]
  }

  predicate NamedOnce<V>(named: seq<Argument<V>>) {
    forall i, j :: 0 <= i < j < |named| ==> named[i].name != named[j].name
  }

  /** A parameter that needs an argument and has none. */
  ghost predicate Missing<V>(params: seq<Param>, positional: seq<V>, named: map<string, V>, i: nat)
    requires i < |params|
  {
    !params[i].hasDefault && BoundAt(params, positional, named, i).None?
  }

  ghost predicate NoneMissing<V>(params: seq<Param>, positional: seq<V>, named: map<string, V>) {
    forall i :: 0 <= i < |params| ==> !Missing(params, positional, named, i)
  }

  /** The first named argument without a place of its own. */
  ghost predicate FirstUnplaced<V>(params: seq<Param>, positional: seq<V>, named: seq<Argument<V>>, k: nat) {
    && k < |named| && !HasPlace(params, positional, named[k].name)
    && forall j :: 0 <= j < k ==> HasPlace(params, positional, named[j].name)
  }

  /** The error there is: a positional argument too many comes before a named one without a place, the first of
      these before a missing one, the first of these before the rest. */
  ghost predicate FailsFor<V>(params: seq<Param>, positional: seq<V>, named: seq<Argument<V>>, error: BindError) {
    var room := Rank(params, |params|);
    match error
    case TooManyPositional(at) => at == room < |positional| && forall i :: 0 <= i < |params| ==> Capable(params[i])
    case PositionalInNamedOnly(at) => at == room < |positional| && exists i :: 0 <= i < |params| && !Capable(params[i])
    case UnknownName(k) =>
      && |positional| <= room && FirstUnplaced(params, positional, named, k)
      && forall i :: 0 <= i < |params| ==> params[i].name != named[k].name
    case PositionalOnlyByName(k) =>
      && |positional| <= room && FirstUnplaced(params, positional, named, k)
      && exists i :: 0 <= i < |params| && params[i].name == named[k].name && params[i].kind == PositionalOnly
    case Duplicate(k) =>
      && |positional| <= room && FirstUnplaced(params, positional, named, k)
      && exists i :: 0 <= i < |params| && params[i].name == named[k].name && params[i].kind != PositionalOnly && ByPosition(params, positional, i)
    case MissingRequired(i) =>
      && Fits(params, positional, ByNames(named)) && i < |params| && Missing(params, positional, ByNames(named), i)
      && forall j :: 0 <= j < i ==> !Missing(params, positional, ByNames(named), j)
  }

  ghost predicate AllBound<V>(params: seq<Param>, positional: seq<V>, named: map<string, V>, values: seq<Option<V>>) {
    |values| == |params| && forall i :: 0 <= i < |params| ==> values[i] == BoundAt(params, positional, named, i)
  }

  method BindArguments<V>(params: seq<Param>, positional: seq<V>, named: seq<Argument<V>>) returns (r: BindResult<V>)
    requires DistinctNames(params) && NamedOnce(named)
    ensures r.Bound? <==> Fits(params, positional, ByNames(named)) && NoneMissing(params, positional, ByNames(named))
    ensures r.Bound? ==> AllBound(params, positional, ByNames(named), r.values)
    ensures r.Failed? ==> FailsFor(params, positional, named, r.error)
  {
    var bound := BindPositional(params, positional);
    if bound.None? {
      var at := Rank(params, |params|);
      return Failed(if exists i :: 0 <= i < |params| && params[i].kind == NamedOnly then PositionalInNamedOnly(at) else TooManyPositional(at));
    }
    r := BindNamed(params, positional, named, bound.value);
    if r.Failed? {
      return;
    }
    for i := 0 to |params|
      invariant forall j :: 0 <= j < i ==> !Missing(params, positional, ByNames(named), j)
    {
      if r.values[i].None? && !params[i].hasDefault {
        assert Missing(params, positional, ByNames(named), i);
        return Failed(MissingRequired(i));
      }
    }
  }

  /** Positional arguments fill the capable parameters from the left, if there are enough of them. */
  method BindPositional<V>(params: seq<Param>, positional: seq<V>) returns (r: Option<seq<Option<V>>>)
    ensures r.Some? <==> |positional| <= Rank(params, |params|)
    ensures r.Some? ==> AllBound(params, positional, map[], r.value)
    ensures r.Some? ==> forall i :: 0 <= i < |params| ==> (r.value[i].Some? <==> ByPosition(params, positional, i))
  {
    var bound := seq(|params|, _ => None);
    var at := 0;
    for k := 0 to |positional|
      invariant Placed(params, positional, k, at, bound)
    {
      while at < |params| && params[at].kind == NamedOnly
        invariant Placed(params, positional, k, at, bound)
      {
        PlaceNext(params, positional, k, at, bound);
        at := at + 1;
      }
      if at == |params| {
        return None;
      }
      PlaceNext(params, positional, k, at, bound);
      bound := bound[at := Some(positional[k])];
      at := at + 1;
    }
    PlacedIsBound(params, positional, at, bound);
    r := Some(bound);
  }

  lemma {:induction false} ByNamesAre<V>(named: seq<Argument<V>>, k: nat)
    requires NamedOnce(named) && k <= |named|
    ensures forall name :: name in ByNames(named[..k]) <==> exists j :: 0 <= j < k && named[j].name == name
    ensures forall j :: 0 <= j < k ==> named[j].name in ByNames(named[..k]) && ByNames(named[..k])[named[j].name] == named[j].value
  {
    if k > 0 {
      ByNamesAre(named, k - 1);
      assert named[..k][..k - 1] == named[..k - 1];
    }
  }

  /** What is bound once the first k names have been. */
  ghost predicate NamedPlaced<V>(params: seq<Param>, positional: seq<V>, named: seq<Argument<V>>, k: nat, bound: seq<Option<V>>) {
    && k <= |named| && (forall j :: 0 <= j < k ==> HasPlace(params, positional, named[j].name))
    && AllBound(params, positional, ByNames(named[..k]), bound)
  }

  lemma PlaceName<V>(params: seq<Param>, positional: seq<V>, named: seq<Argument<V>>, k: nat, bound: seq<Option<V>>, i: nat)
    requires DistinctNames(params) && NamedOnce(named) && k < |named| && NamedPlaced(params, positional, named, k, bound)
    requires i < |params| && params[i].name == named[k].name && params[i].kind != PositionalOnly && bound[i].None?
    ensures NamedPlaced(params, positional, named, k + 1, bound[i := Some(named[k].value)])
  {
    assert named[..k + 1][..k] == named[..k];
    assert HasPlace(params, positional, named[k].name);
  }

  /** A name no argument before has is not bound yet, so what stands at its parameter came by position. */
  lemma BoundByPosition<V>(params: seq<Param>, positional: seq<V>, named: seq<Argument<V>>, k: nat, bound: seq<Option<V>>, i: nat)
    requires NamedOnce(named) && k < |named| && NamedPlaced(params, positional, named, k, bound)
    requires i < |params| && params[i].name == named[k].name && bound[i].Some?
    ensures ByPosition(params, positional, i)
  {
    ByNamesAre(named, k);
  }

  lemma NoPlace<V>(params: seq<Param>, positional: seq<V>, i: nat)
    requires DistinctNames(params) && i < |params|
    requires params[i].kind == PositionalOnly || ByPosition(params, positional, i)
    ensures !HasPlace(params, positional, params[i].name)
  {
  }

  lemma UnplacedDoesNotFit<V>(params: seq<Param>, positional: seq<V>, named: seq<Argument<V>>, k: nat)
    requires NamedOnce(named) && k < |named| && !HasPlace(params, positional, named[k].name)
    ensures !Fits(params, positional, ByNames(named))
  {
    ByNamesAre(named, |named|);
    assert named[..|named|] == named;
  }

  lemma AllPlacedFits<V>(params: seq<Param>, positional: seq<V>, named: seq<Argument<V>>, bound: seq<Option<V>>)
    requires NamedOnce(named) && |positional| <= Rank(params, |params|) && NamedPlaced(params, positional, named, |named|, bound)
    ensures Fits(params, positional, ByNames(named)) && AllBound(params, positional, ByNames(named), bound)
  {
    ByNamesAre(named, |named|);
    assert named[..|named|] == named;
  }

  /** Named arguments go to their parameters, in source order, up to the first without a free place. */
  method BindNamed<V>(params: seq<Param>, positional: seq<V>, named: seq<Argument<V>>, bound: seq<Option<V>>) returns (r: BindResult<V>)
    requires DistinctNames(params) && NamedOnce(named) && |positional| <= Rank(params, |params|)
    requires AllBound(params, positional, map[], bound)
    ensures r.Bound? <==> Fits(params, positional, ByNames(named))
    ensures r.Bound? ==> AllBound(params, positional, ByNames(named), r.values)
    ensures r.Failed? ==> FailsFor(params, positional, named, r.error)
  {
    var values := bound;
    assert ByNames(named[..0]) == map[];
    for k := 0 to |named|
      invariant NamedPlaced(params, positional, named, k, values)
    {
      var i := 0;
      while i < |params| && params[i].name != named[k].name
        invariant i <= |params| && forall j :: 0 <= j < i ==> params[j].name != named[k].name
      {
        i := i + 1;
      }
      if i == |params| {
        UnplacedDoesNotFit(params, positional, named, k);
        return Failed(UnknownName(k));
      }
      if params[i].kind == PositionalOnly {
        NoPlace(params, positional, i);
        UnplacedDoesNotFit(params, positional, named, k);
        return Failed(PositionalOnlyByName(k));
      }
      if values[i].Some? {
        BoundByPosition(params, positional, named, k, values, i);
        NoPlace(params, positional, i);
        UnplacedDoesNotFit(params, positional, named, k);
        return Failed(Duplicate(k));
      }
      PlaceName(params, positional, named, k, values, i);
      values := values[i := Some(named[k].value)];
    }
    AllPlacedFits(params, positional, named, values);
    return Bound(values);
  }

  // ----- What binding comes to, parameter by parameter -----

  /** How many of the parameters before one take positional arguments. */
  lemma {:induction false} RankCounts(params: seq<Param>, n: nat)
    requires n <= |params|
    ensures Rank(params, n) == |set i | 0 <= i < n && params[i].kind != NamedOnly|
  {
    var before := set i | 0 <= i < n && params[i].kind != NamedOnly;
    if n > 0 {
      var fewer := set i | 0 <= i < n - 1 && params[i].kind != NamedOnly;
      RankCounts(params, n - 1);
      assert before == fewer + if params[n - 1].kind != NamedOnly then {n - 1} else {};
    } else {
      assert before == {};
    }
  }

  /** A parameter gets the positional argument of its rank among those that take one, or the argument of its name, or
      nothing. */
  lemma BoundAtIff<V>(params: seq<Param>, positional: seq<V>, named: seq<Argument<V>>, i: nat, value: V)
    requires DistinctNames(params) && NamedOnce(named) && i < |params|
    ensures var rank := |set j | 0 <= j < i && params[j].kind != NamedOnly|;
            BoundAt(params, positional, ByNames(named), i) == Some(value) <==>
            if params[i].kind != NamedOnly && rank < |positional| then positional[rank] == value
            else Argument(params[i].name, value) in named
  {
    RankCounts(params, i);
    ByNamesAre(named, |named|);
    assert named[..|named|] == named;
    hide Rank;
    if Argument(params[i].name, value) in named {
      var k :| 0 <= k < |named| && named[k] == Argument(params[i].name, value);
      assert ByNames(named)[named[k].name] == value;
    }
  }

  /** How many of the first n parameters are not named-only. */
  function PositionalBefore(params: seq<Param>, n: nat): nat
    requires n <= |params|
  {
    |set j | 0 <= j < n && params[j].kind != NamedOnly|
  }

  lemma RankIsBefore(params: seq<Param>, n: nat)
    requires n <= |params|
    ensures Rank(params, n) == PositionalBefore(params, n)
  {
    RankCounts(params, n);
  }

  /** A parameter is not filled by position. */
  predicate LeftOver(params: seq<Param>, count: nat, i: nat)
    requires i < |params|
  {
    params[i].kind == NamedOnly || PositionalBefore(params, i) >= count
  }

  /** A name has a parameter that may be named and is not filled by position. */
  predicate CanGo(params: seq<Param>, count: nat, name: string) {
    exists i :: 0 <= i < |params| && params[i].name == name && params[i].kind != PositionalOnly && LeftOver(params, count, i)
  }

  predicate Named<V>(named: seq<Argument<V>>, name: string) {
    exists k :: 0 <= k < |named| && named[k].name == name
  }

  lemma LeftOverIff<V>(params: seq<Param>, positional: seq<V>, i: nat)
    requires i < |params|
    ensures LeftOver(params, |positional|, i) <==> !ByPosition(params, positional, i)
  {
    RankIsBefore(params, i);
  }

  lemma CanGoIff<V>(params: seq<Param>, positional: seq<V>, name: string)
    ensures CanGo(params, |positional|, name) <==> HasPlace(params, positional, name)
  {
    hide LeftOver, ByPosition;
    forall i | 0 <= i < |params|
      ensures LeftOver(params, |positional|, i) <==> !ByPosition(params, positional, i)
    {
      LeftOverIff(params, positional, i);
    }
  }

  lemma MissingIff<V>(params: seq<Param>, positional: seq<V>, named: seq<Argument<V>>, i: nat)
    requires NamedOnce(named) && i < |params|
    ensures Missing(params, positional, ByNames(named), i) <==>
            !params[i].hasDefault && LeftOver(params, |positional|, i) && !Named(named, params[i].name)
  {
    hide LeftOver, ByPosition, ByNames;
    LeftOverIff(params, positional, i);
    ByNamesAre(named, |named|);
    assert named[..|named|] == named;
  }

  /** Binding succeeds exactly if there are parameters for all positional arguments, each named one can go to a parameter of
      its own, and each parameter without a default is filled, by position or by name. */
  lemma BindsIff<V>(params: seq<Param>, positional: seq<V>, named: seq<Argument<V>>)
    requires DistinctNames(params) && NamedOnce(named)
    ensures Fits(params, positional, ByNames(named)) && NoneMissing(params, positional, ByNames(named)) <==>
            && |positional| <= PositionalBefore(params, |params|)
            && (forall k :: 0 <= k < |named| ==> CanGo(params, |positional|, named[k].name))
            && (forall i :: 0 <= i < |params| && !params[i].hasDefault ==> !LeftOver(params, |positional|, i) || Named(named, params[i].name))
  {
    hide Rank, ByNames, HasPlace, Missing, PositionalBefore, CanGo, LeftOver, Named;
    RankIsBefore(params, |params|);
    ByNamesAre(named, |named|);
    assert named[..|named|] == named;
    forall name
      ensures CanGo(params, |positional|, name) <==> HasPlace(params, positional, name)
    {
      CanGoIff(params, positional, name);
    }
    forall i | 0 <= i < |params|
      ensures Missing(params, positional, ByNames(named), i) <==>
              !params[i].hasDefault && LeftOver(params, |positional|, i) && !Named(named, params[i].name)
    {
      MissingIff(params, positional, named, i);
    }
  }
}
