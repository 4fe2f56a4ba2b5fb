/** Who rightfully owns a flag, told from the places that claim it: a route's flag, a route's negative, a short flag. */
module FlagRights {
  import opened Options
  import opened FlagClaims
  import opened FlagOwnership

  /** A parameter, and one of its places. */
  type Place = (nat, nat)

  predicate Before(a: Place, b: Place) {
    a.0 < b.0 || (a.0 == b.0 && a.1 < b.1)
  }

  ghost predicate Increasing(places: seq<Place>) {
    forall i, j :: 0 <= i < j < |places| ==> Before(places[i], places[j])
  }

  function AsParam(option: ProgramOption): ModuleParam {
    ModuleParam(true, [option.projection], option.short)
  }

  lemma OneFlag(param: ModuleParam, place: nat, f: string, g: string)
    requires ClaimedAt(param, place, f) && ClaimedAt(param, place, g)
    ensures f == g
  {
  }

  /** A parameter claims the flags that stand at its places. */
  lemma SpellingsAre(param: ModuleParam, flag: string)
    ensures flag in Spellings(param.routes, param.short) <==> exists place: nat :: ClaimedAt(param, place, flag)
  {
    hide ClaimedAt, Spellings;
    var flags := Spellings(param.routes, param.short);
    var places := SpellingsInOrder(param);
    if place: nat :| ClaimedAt(param, place, flag) {
      var k :| 0 <= k < |places| && places[k] == place;
      OneFlag(param, place, flag, flags[k]);
    }
    if flag in flags {
      var k :| 0 <= k < |flags| && flags[k] == flag;
      assert ClaimedAt(param, places[k], flag);
    }
  }

  // ----- The places of a level -----

  /** The claims of the first n parameters of a level, each with the place it is made at, in order. */
  ghost predicate Placed(params: seq<ModuleParam>, own: bool, n: nat, claims: seq<Claim>, places: seq<Place>)
    requires n <= |params|
  {
    && |places| == |claims| && Increasing(places)
    && (forall k :: 0 <= k < |claims| ==>
                      && places[k].0 < n && params[places[k].0].own == own
                      && claims[k].claimant == Some(places[k].0)
                      && ClaimedAt(params[places[k].0], places[k].1, claims[k].spelling))
    && (forall q: nat, r: nat, f :: q < n && params[q].own == own && ClaimedAt(params[q], r, f) ==> (q, r) in places)
  }

  /** The places of one parameter. */
  function OwnPlaces(p: nat, places: seq<nat>): (own: seq<Place>)
    ensures |own| == |places|
  {
    seq(|places|, k requires 0 <= k < |places| => (p, places[k]))
  }

  lemma IncreasingNext(places: seq<Place>, n: nat, more: seq<nat>)
    requires Increasing(places) && forall k :: 0 <= k < |places| ==> places[k].0 < n
    requires forall i, j :: 0 <= i < j < |more| ==> more[i] < more[j]
    ensures Increasing(places + OwnPlaces(n, more))
  {
  }

  lemma PlacedNext(params: seq<ModuleParam>, own: bool, n: nat, claims: seq<Claim>, places: seq<Place>, more: seq<nat>)
    requires n < |params| && Placed(params, own, n, claims, places) && params[n].own == own
    requires InOrder(params[n], Spellings(params[n].routes, params[n].short), more)
    requires forall place: nat, flag :: ClaimedAt(params[n], place, flag) ==> place in more
    ensures Placed(params, own, n + 1, claims + OneParamClaims(params[n], n), places + OwnPlaces(n, more))
  {
    hide ClaimedAt, Spellings, Increasing;
    IncreasingNext(places, n, more);
    var all, longer := places + OwnPlaces(n, more), claims + OneParamClaims(params[n], n);
    forall q: nat, r: nat, f | q < n + 1 && params[q].own == own && ClaimedAt(params[q], r, f)
      ensures (q, r) in all
    {
      if q == n {
        var k :| 0 <= k < |more| && more[k] == r;
        assert all[|places| + k] == (q, r);
      } else {
        assert (q, r) in places;
      }
    }
    forall k | 0 <= k < |longer|
      ensures all[k].0 < n + 1 && params[all[k].0].own == own && longer[k].claimant == Some(all[k].0)
      ensures ClaimedAt(params[all[k].0], all[k].1, longer[k].spelling)
    {
      if k >= |claims| {
        var i := k - |claims|;
        assert ClaimedAt(params[n], more[i], Spellings(params[n].routes, params[n].short)[i]);
      }
    }
  }

  lemma PlacedSkip(params: seq<ModuleParam>, own: bool, n: nat, claims: seq<Claim>, places: seq<Place>)
    requires n < |params| && Placed(params, own, n, claims, places) && params[n].own != own
    ensures Placed(params, own, n + 1, claims, places)
  {
    hide ClaimedAt;
  }

  lemma {:induction false} LevelPlaced(params: seq<ModuleParam>, own: bool, n: nat) returns (places: seq<Place>)
    requires n <= |params|
    ensures Placed(params, own, n, ParamClaims(params, own, n), places)
  {
    hide Placed, ClaimedAt, Spellings, OneParamClaims;
    if n == 0 {
      places := [];
      NothingPlaced(params, own);
    } else {
      places := LevelPlaced(params, own, n - 1);
      if params[n - 1].own == own {
        var more := SpellingsInOrder(params[n - 1]);
        PlacedNext(params, own, n - 1, ParamClaims(params, own, n - 1), places, more);
        places := places + OwnPlaces(n - 1, more);
      } else {
        PlacedSkip(params, own, n - 1, ParamClaims(params, own, n - 1), places);
        assert ParamClaims(params, own, n) == ParamClaims(params, own, n - 1);
      }
    }
  }

  lemma NothingPlaced(params: seq<ModuleParam>, own: bool)
    ensures Placed(params, own, 0, [], [])
  {
  }

  // ----- The places that claim one flag -----

  /** The places of a level that claim a flag, in order. */
  ghost predicate Claiming(params: seq<ModuleParam>, own: bool, flag: string, places: seq<Place>) {
    && Increasing(places)
    && forall q: nat, r: nat :: (q, r) in places <==> q < |params| && params[q].own == own && ClaimedAt(params[q], r, flag)
  }

  /** The claims of one flag, picked with their places. */
  lemma {:induction false} PickClaims(claims: seq<Claim>, places: seq<Place>, flag: string) returns (picked: seq<Place>)
    requires |places| == |claims| && Increasing(places)
    requires forall k :: 0 <= k < |claims| ==> claims[k].claimant == Some(places[k].0)
    ensures |picked| == |Claimants(claims, flag)| && Increasing(picked)
    ensures forall i :: 0 <= i < |picked| ==> Claimants(claims, flag)[i] == Some(picked[i].0)
    ensures forall place :: place in picked <==> exists k :: 0 <= k < |places| && places[k] == place && claims[k].spelling == flag
  {
    picked := [];
    if claims != [] {
      var n := |claims| - 1;
      picked := PickClaims(claims[..n], places[..n], flag);
      if claims[n].spelling == flag {
        forall i | 0 <= i < |picked|
          ensures Before(picked[i], places[n])
        {
          assert picked[i] in picked;
        }
        picked := picked + [places[n]];
      }
    }
  }

  lemma FlagPlaces(params: seq<ModuleParam>, own: bool, flag: string) returns (places: seq<Place>)
    ensures Claiming(params, own, flag, places)
    ensures var claimants := Claimants(ParamClaims(params, own, |params|), flag);
            |claimants| == |places| && forall i :: 0 <= i < |places| ==> claimants[i] == Some(places[i].0)
  {
    hide ClaimedAt;
    var all := LevelPlaced(params, own, |params|);
    var claims := ParamClaims(params, own, |params|);
    places := PickClaims(claims, all, flag);
    forall q: nat, r: nat
      ensures (q, r) in places <==> q < |params| && params[q].own == own && ClaimedAt(params[q], r, flag)
    {
      if q < |params| && params[q].own == own && ClaimedAt(params[q], r, flag) {
        var k :| 0 <= k < |all| && all[k] == (q, r);
        OneFlag(params[q], r, flag, claims[k].spelling);
      }
    }
  }

  // ----- Whose a flag is -----

  /** Some parameter of a level claims a flag. */
  ghost predicate LevelClaims(params: seq<ModuleParam>, own: bool, flag: string) {
    exists q: nat, r: nat :: q < |params| && params[q].own == own && ClaimedAt(params[q], r, flag)
  }

  /** A place is its level's only one that claims a flag. */
  ghost predicate Alone(params: seq<ModuleParam>, flag: string, p: nat, place: nat) {
    && p < |params| && ClaimedAt(params[p], place, flag)
    && forall q: nat, r: nat :: q < |params| && params[q].own == params[p].own && ClaimedAt(params[q], r, flag) ==> (q, r) == (p, place)
  }

  lemma NoneIff(params: seq<ModuleParam>, own: bool, flag: string, places: seq<Place>)
    requires Claiming(params, own, flag, places)
    ensures places != [] <==> LevelClaims(params, own, flag)
  {
    hide ClaimedAt;
    if places != [] {
      assert (places[0].0, places[0].1) in places;
    }
    if q: nat, r: nat :| q < |params| && params[q].own == own && ClaimedAt(params[q], r, flag) {
      assert (q, r) in places;
    }
  }

  lemma AloneIff(params: seq<ModuleParam>, own: bool, flag: string, places: seq<Place>, p: nat)
    requires Claiming(params, own, flag, places)
    ensures |places| == 1 && places[0].0 == p <==> p < |params| && params[p].own == own && exists place: nat :: Alone(params, flag, p, place)
  {
    hide ClaimedAt;
    if |places| == 1 && places[0].0 == p {
      assert (p, places[0].1) in places;
      assert Alone(params, flag, p, places[0].1);
    }
    if place: nat :| p < |params| && params[p].own == own && Alone(params, flag, p, place) {
      assert (p, place) in places;
      forall i | 0 <= i < |places|
        ensures places[i] == (p, place)
      {
        assert (places[i].0, places[i].1) in places;
      }
      assert |places| > 1 ==> Before(places[0], places[1]);
    }
  }

  /** A module parameter rightfully owns a flag exactly if neither host nor program claims it, one place of the
      parameter is the only one of its level that does, and an imported parameter only if none of the program's own
      module claims it. */
  lemma RightfulParamIff(reserved: set<string>, options: seq<ProgramOption>, params: seq<ModuleParam>, p: nat, flag: string)
    ensures Rightful(reserved, options, params, OfParam(p), flag) <==>
            && flag !in reserved && !LevelClaims(AsParams(options), true, flag)
            && p < |params| && (exists place: nat :: Alone(params, flag, p, place))
            && (params[p].own || !LevelClaims(params, true, flag))
  {
    hide LevelClaims, Alone, Claiming, Programmed;
    ProgrammedIff(options, flag);
    var own := FlagPlaces(params, true, flag);
    var imported := FlagPlaces(params, false, flag);
    NoneIff(params, true, flag, own);
    AloneIff(params, true, flag, own, p);
    AloneIff(params, false, flag, imported, p);
    if p < |params| && params[p].own && exists place: nat :: Alone(params, flag, p, place) {
      assert own != [];
    }
  }

  lemma {:induction false} ParamsAre(claimants: seq<Claimant>, places: seq<Place>)
    requires |claimants| == |places| && forall i :: 0 <= i < |places| ==> claimants[i] == Some(places[i].0)
    ensures |Params(claimants)| == |places| && forall i :: 0 <= i < |places| ==> Params(claimants)[i] == places[i].0
  {
    if claimants != [] {
      ParamsAre(claimants[1..], places[1..]);
    }
  }

  /** A flag is rejected as ambiguous exactly if neither host nor program claims it and two places of the level that
      decides it do: the sentinel names the parameters of those places, in order. */
  lemma RightfulSentinelIff(reserved: set<string>, options: seq<ProgramOption>, params: seq<ModuleParam>, ps: seq<nat>, flag: string)
    ensures Rightful(reserved, options, params, Sentinel(ps), flag) <==>
            && flag !in reserved && !LevelClaims(AsParams(options), true, flag)
            && exists places: seq<Place> :: && Claiming(params, LevelClaims(params, true, flag), flag, places)
                                && |places| == |ps| >= 2 && forall i :: 0 <= i < |ps| ==> ps[i] == places[i].0
  {
    hide LevelClaims, Programmed, ClaimedAt, Claiming, Judge;
    ProgrammedIff(options, flag);
    var level := LevelClaims(params, true, flag);
    var own := FlagPlaces(params, true, flag);
    var imported := FlagPlaces(params, false, flag);
    NoneIff(params, true, flag, own);
    var places := if level then own else imported;
    var claimants := Claimants(ParamClaims(params, level, |params|), flag);
    assert ModuleVerdict(params, flag) == Judge(claimants);
    JudgeIs(claimants, places, ps);
    if other: seq<Place> :| Claiming(params, level, flag, other) && |other| == |ps| >= 2 && forall i :: 0 <= i < |ps| ==> ps[i] == other[i].0 {
      ClaimingOnce(params, level, flag, places, other);
    }
  }

  lemma ClaimingOnce(params: seq<ModuleParam>, own: bool, flag: string, a: seq<Place>, b: seq<Place>)
    requires Claiming(params, own, flag, a) && Claiming(params, own, flag, b)
    ensures a == b
  {
    hide ClaimedAt, Increasing;
    forall place: Place
      ensures place in a <==> place in b
    {
      assert (place.0, place.1) in a <==> (place.0, place.1) in b;
    }
    SamePlaces(a, b);
  }

  lemma JudgeIs(claimants: seq<Claimant>, places: seq<Place>, ps: seq<nat>)
    requires |claimants| == |places| && forall i :: 0 <= i < |places| ==> claimants[i] == Some(places[i].0)
    ensures Judge(claimants) == Ambiguous(ps) <==> |places| == |ps| >= 2 && forall i :: 0 <= i < |ps| ==> ps[i] == places[i].0
  {
    hide Params;
    ParamsAre(claimants, places);
  }

  /** An increasing list is determined by what is in it. */
  lemma {:induction false} SamePlaces(a: seq<Place>, b: seq<Place>)
    requires Increasing(a) && Increasing(b) && forall place :: place in a <==> place in b
    ensures a == b
  {
    SomePlace(a);
    SomePlace(b);
    if a != [] {
      assert a[0] in b && b[0] in a;
      var x, y := a[1..], b[1..];
      TailPlaces(a);
      TailPlaces(b);
      SamePlaces(x, y);
    }
  }

  lemma SomePlace(places: seq<Place>)
    ensures places != [] ==> exists place :: place in places
  {
    if places != [] {
      assert places[0] in places;
    }
  }

  lemma TailPlaces(places: seq<Place>)
    requires Increasing(places) && places != []
    ensures Increasing(places[1..]) && forall place :: place in places[1..] <==> place in places && place != places[0]
  {
    assert places == [places[0]] + places[1..];
    forall i | 0 <= i < |places[1..]|
      ensures places[1..][i] != places[0]
    {
      assert Before(places[0], places[i + 1]);
    }
  }

  function AsParams(options: seq<ProgramOption>): (params: seq<ModuleParam>)
    ensures |params| == |options|
  {
    seq(|options|, i requires 0 <= i < |options| => AsParam(options[i]))
  }

  lemma ProgrammedIff(options: seq<ProgramOption>, flag: string)
    ensures Programmed(options, flag) <==> LevelClaims(AsParams(options), true, flag)
  {
    hide ClaimedAt, Spellings;
    if i: nat :| i < |options| && flag in OptionSpellings(options[i]) {
      SpellingsAre(AsParam(options[i]), flag);
      var place: nat :| ClaimedAt(AsParam(options[i]), place, flag);
      assert ClaimedAt(AsParams(options)[i], place, flag);
    }
    if i: nat, r: nat :| i < |options| && ClaimedAt(AsParams(options)[i], r, flag) {
      SpellingsAre(AsParam(options[i]), flag);
    }
  }

  // ----- What program options demand -----

  /** The demands, in order, with the place each is made at: an option's name, and a flag it claims there. */
  ghost predicate DemandsPlaced(options: seq<ProgramOption>, demands: seq<Demand>, places: seq<Place>) {
    && |places| == |demands| && Increasing(places)
    && (forall k :: 0 <= k < |demands| ==>
                      && places[k].0 < |options| && demands[k].name == options[places[k].0].name
                      && ClaimedAt(AsParam(options[places[k].0]), places[k].1, demands[k].flag))
    && (forall i: nat, r: nat, f :: i < |options| && ClaimedAt(AsParam(options[i]), r, f) ==> (i, r) in places)
  }

  lemma {:induction false} DemandsAreClaims(options: seq<ProgramOption>, n: nat)
    requires n <= |options|
    ensures var demands, claims := Demands(options[..n]), ParamClaims(AsParams(options), true, n);
            && |demands| == |claims|
            && forall k :: 0 <= k < |demands| ==>
                 && demands[k].flag == claims[k].spelling && claims[k].claimant.Some? && claims[k].claimant.value < n
                 && demands[k].name == options[claims[k].claimant.value].name
  {
    hide OptionSpellings, Spellings;
    if n > 0 {
      DemandsAreClaims(options, n - 1);
      assert options[..n][..n - 1] == options[..n - 1];
      OptionClaims(options[n - 1], n - 1);
    }
  }

  lemma OptionClaims(option: ProgramOption, i: nat)
    ensures var demands, claims := Demanded(option), OneParamClaims(AsParam(option), i);
            && |demands| == |claims|
            && forall k :: 0 <= k < |demands| ==>
                 demands[k].flag == claims[k].spelling && claims[k].claimant == Some(i) && demands[k].name == option.name
  {
    hide Spellings;
  }

  lemma DemandPlaces(options: seq<ProgramOption>) returns (places: seq<Place>)
    ensures DemandsPlaced(options, Demands(options), places)
  {
    hide ClaimedAt;
    places := LevelPlaced(AsParams(options), true, |options|);
    DemandsAreClaims(options, |options|);
    assert options[..|options|] == options;
    forall i: nat, r: nat, f | i < |options| && ClaimedAt(AsParam(options[i]), r, f)
      ensures (i, r) in places
    {
      assert ClaimedAt(AsParams(options)[i], r, f);
    }
  }

  /** The demand made at a claimed place. */
  lemma DemandAtPlace(options: seq<ProgramOption>, places: seq<Place>, i: nat, r: nat, f: string) returns (k: nat)
    requires DemandsPlaced(options, Demands(options), places) && i < |options| && ClaimedAt(AsParam(options[i]), r, f)
    ensures k < |Demands(options)| && places[k] == (i, r) && Demands(options)[k].flag == f
  {
    hide ClaimedAt, Demands;
    k :| 0 <= k < |places| && places[k] == (i, r);
    OneFlag(AsParam(options[i]), r, f, Demands(options)[k].flag);
  }

  /** There is no collision exactly if no flag an option claims is reserved, or claimed at a second place. */
  lemma CollisionFreeIff(reserved: set<string>, options: seq<ProgramOption>)
    ensures CollisionFree(reserved, options) <==>
            && (forall i: nat, r: nat, f :: i < |options| && ClaimedAt(AsParam(options[i]), r, f) ==> f !in reserved)
            && (forall i: nat, r: nat, j: nat, s: nat, f ::
                  i < |options| && j < |options| && ClaimedAt(AsParam(options[i]), r, f) && ClaimedAt(AsParam(options[j]), s, f) ==> (i, r) == (j, s))
  {
    hide ClaimedAt, Demands, AsParam;
    var demands := Demands(options);
    var places := DemandPlaces(options);
    if CollisionFree(reserved, options) {
      forall i: nat, r: nat, f | i < |options| && ClaimedAt(AsParam(options[i]), r, f)
        ensures f !in reserved
      {
        var k := DemandAtPlace(options, places, i, r, f);
        assert !Collides(demands, reserved, k);
      }
      forall i: nat, r: nat, j: nat, s: nat, f | i < |options| && j < |options| && ClaimedAt(AsParam(options[i]), r, f) && ClaimedAt(AsParam(options[j]), s, f)
        ensures (i, r) == (j, s)
      {
        var k := DemandAtPlace(options, places, i, r, f);
        var l := DemandAtPlace(options, places, j, s, f);
        assert !Collides(demands, reserved, k) && !Collides(demands, reserved, l);
      }
    } else {
      var k :| 0 <= k < |demands| && Collides(demands, reserved, k);
      assert ClaimedAt(AsParam(options[places[k].0]), places[k].1, demands[k].flag);
      if demands[k].flag !in reserved {
        var j :| 0 <= j < k && demands[j].flag == demands[k].flag;
        assert Before(places[j], places[k]) && ClaimedAt(AsParam(options[places[j].0]), places[j].1, demands[k].flag);
      }
    }
  }
}
