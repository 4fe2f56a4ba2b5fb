/** A program command's flags: every one is the host's, the program's, a module parameter's or ambiguous, never two. */
module FlagOwnership {
  import opened Options
  import opened FlagClaims

  /** The flags one name gives a parameter. */
  datatype Projection = Projection(flag: string, negative: Option<string>)

  /** A program parameter that is addressed by flags. */
  datatype ProgramOption = ProgramOption(name: string, projection: Projection, short: Option<string>)

  /** A module parameter, with a projection for each route to it; `own` if it is of the program's module. */
  datatype ModuleParam = ModuleParam(own: bool, routes: seq<Projection>, short: Option<string>)

  function Optional(flag: Option<string>): seq<string> {
    match flag
    case None => []
    case Some(f) => [f]
  }

  function Flags(projection: Projection): seq<string> {
    [projection.flag] + Optional(projection.negative)
  }

  function RouteFlags(routes: seq<Projection>): seq<string> {
    if routes == [] then [] else Flags(routes[0]) + RouteFlags(routes[1..])
  }

  /** Every flag a parameter claims. */
  function Spellings(routes: seq<Projection>, short: Option<string>): seq<string> {
    RouteFlags(routes) + Optional(short)
  }

  function OptionSpellings(option: ProgramOption): seq<string> {
    Spellings([option.projection], option.short)
  }

  // ----- Reservation -----

  /** A program option's claim to a flag. */
  datatype Demand = Demand(flag: string, name: string)

  function Demanded(option: ProgramOption): (demands: seq<Demand>)
    ensures |demands| == |OptionSpellings(option)|
  {
    seq(|OptionSpellings(option)|, k requires 0 <= k < |OptionSpellings(option)| => Demand(OptionSpellings(option)[k], option.name))
  }

  function Demands(options: seq<ProgramOption>): seq<Demand> {
    if options == [] then [] else Demands(options[..|options| - 1]) + Demanded(options[|options| - 1])
  }

  predicate Earlier(demands: seq<Demand>, k: nat, flag: string)
    requires k <= |demands|
  {
    exists j :: 0 <= j < k && demands[j].flag == flag
  }

  predicate Collides(demands: seq<Demand>, reserved: set<string>, k: nat)
    requires k < |demands|
  {
    demands[k].flag in reserved || Earlier(demands, k, demands[k].flag)
  }

  ghost predicate CollisionFree(reserved: set<string>, options: seq<ProgramOption>) {
    forall k :: 0 <= k < |Demands(options)| ==> !Collides(Demands(options), reserved, k)
  }

  datatype Collision = Reserved(parameter: string, flag: string) | Duplicate(first: string, second: string, flag: string)

  /** A collision found is the first there is, with those involved. */
  ghost predicate FirstCollision(demands: seq<Demand>, reserved: set<string>, k: nat, collision: Collision)
    requires k < |demands|
  {
    && Collides(demands, reserved, k) && (forall j :: 0 <= j < k ==> !Collides(demands, reserved, j))
    && if demands[k].flag in reserved then collision == Reserved(demands[k].name, demands[k].flag)
       else exists j :: 0 <= j < k && demands[j].flag == demands[k].flag
                        && collision == Duplicate(demands[j].name, demands[k].name, demands[k].flag)
  }

  lemma {:induction false} DemandsPrefix(options: seq<ProgramOption>, n: nat)
    requires n <= |options|
    ensures Demands(options[..n]) <= Demands(options)
    decreases |options|
  {
    if n == |options| {
      assert options[..n] == options;
    } else {
      DemandsPrefix(options[..|options| - 1], n);
      assert options[..|options| - 1][..n] == options[..n];
    }
  }

  /** Where an option's demands stand among all. */
  lemma DemandsOf(options: seq<ProgramOption>, i: nat)
    requires i < |options|
    ensures var base, flags := |Demands(options[..i])|, OptionSpellings(options[i]);
            && |Demands(options[..i + 1])| == base + |flags| <= |Demands(options)|
            && forall k :: 0 <= k < |flags| ==> Demands(options)[base + k] == Demand(flags[k], options[i].name)
  {
    hide OptionSpellings;
    assert options[..i + 1][..i] == options[..i];
    DemandsPrefix(options, i + 1);
    var base, flags := |Demands(options[..i])|, OptionSpellings(options[i]);
    forall k | 0 <= k < |flags|
      ensures Demands(options)[base + k] == Demand(flags[k], options[i].name)
    {
      assert Demands(options[..i + 1])[base + k] == Demanded(options[i])[k];
    }
  }

  /** Who has demanded each flag so far. */
  ghost predicate SeenAre(demands: seq<Demand>, reserved: set<string>, n: nat, seen: map<string, string>) {
    && n <= |demands|
    && (forall j :: 0 <= j < n ==> !Collides(demands, reserved, j))
    && (forall j :: 0 <= j < n ==> demands[j].flag in seen && seen[demands[j].flag] == demands[j].name)
    && (forall flag :: flag in seen ==> Earlier(demands, n, flag))
  }

  lemma SeenNext(demands: seq<Demand>, reserved: set<string>, n: nat, seen: map<string, string>)
    requires SeenAre(demands, reserved, n, seen) && n < |demands|
    ensures demands[n].flag in reserved ==> FirstCollision(demands, reserved, n, Reserved(demands[n].name, demands[n].flag))
    ensures demands[n].flag !in reserved && demands[n].flag in seen ==>
              FirstCollision(demands, reserved, n, Duplicate(seen[demands[n].flag], demands[n].name, demands[n].flag))
    ensures demands[n].flag !in reserved && demands[n].flag !in seen ==>
              SeenAre(demands, reserved, n + 1, seen[demands[n].flag := demands[n].name])
  {
    if demands[n].flag in seen {
      assert Earlier(demands, n, demands[n].flag);
    }
    assert demands[n].flag !in seen ==> !Earlier(demands, n, demands[n].flag);
    assert forall flag :: Earlier(demands, n, flag) ==> Earlier(demands, n + 1, flag);
    assert Earlier(demands, n + 1, demands[n].flag);
  }

  ghost predicate SomeFirst(demands: seq<Demand>, reserved: set<string>, collision: Collision) {
    exists k :: 0 <= k < |demands| && FirstCollision(demands, reserved, k, collision)
  }

  /** The first flag collision among the options, if there is one. */
  method CheckReservation(options: seq<ProgramOption>, reserved: set<string>) returns (found: Option<Collision>)
    ensures found.None? <==> CollisionFree(reserved, options)
    ensures found.Some? ==> SomeFirst(Demands(options), reserved, found.value)
  {
    hide OptionSpellings, Collides, FirstCollision, SomeFirst;
    var seen: map<string, string> := map[];
    for i := 0 to |options|
      invariant SeenAre(Demands(options), reserved, |Demands(options[..i])|, seen)
    {
      DemandsOf(options, i);
      found, seen := CheckOption(options[i], reserved, seen, Demands(options), |Demands(options[..i])|);
      if found.Some? {
        return;
      }
    }
    assert options[..|options|] == options;
    found := None;
  }

  /** Check one option's flags, the demands before which have been seen. */
  method CheckOption(option: ProgramOption, reserved: set<string>, before: map<string, string>, ghost demands: seq<Demand>,
                     ghost base: nat)
    returns (found: Option<Collision>, seen: map<string, string>)
    requires SeenAre(demands, reserved, base, before) && base + |OptionSpellings(option)| <= |demands|
    requires forall k :: 0 <= k < |OptionSpellings(option)| ==> demands[base + k] == Demand(OptionSpellings(option)[k], option.name)
    ensures found.None? ==> SeenAre(demands, reserved, base + |OptionSpellings(option)|, seen)
    ensures found.Some? ==> SomeFirst(demands, reserved, found.value) && exists k :: 0 <= k < |demands| && Collides(demands, reserved, k)
  {
    seen := before;
    var flags := OptionSpellings(option);
    for k := 0 to |flags|
      invariant SeenAre(demands, reserved, base + k, seen)
    {
      var flag := flags[k];
      assert demands[base + k] == Demand(flag, option.name);
      SeenNext(demands, reserved, base + k, seen);
      if flag in reserved {
        return Some(Reserved(option.name, flag)), seen;
      }
      if flag in seen {
        return Some(Duplicate(seen[flag], option.name, flag)), seen;
      }
      seen := seen[flag := option.name];
    }
    found := None;
  }

  // ----- Levels of claims -----

  function ProgramClaims(options: seq<ProgramOption>): seq<Claim> {
    seq(|Demands(options)|, k requires 0 <= k < |Demands(options)| => Claim(Demands(options)[k].flag, None))
  }

  function OneParamClaims(param: ModuleParam, p: nat): (claims: seq<Claim>)
    ensures |claims| == |Spellings(param.routes, param.short)|
  {
    var spellings := Spellings(param.routes, param.short);
    seq(|spellings|, k requires 0 <= k < |spellings| => Claim(spellings[k], Some(p)))
  }

  function ParamClaims(params: seq<ModuleParam>, own: bool, n: nat): seq<Claim>
    requires n <= |params|
  {
    if n == 0 then []
    else ParamClaims(params, own, n - 1) + if params[n - 1].own == own then OneParamClaims(params[n - 1], n - 1) else []
  }

  lemma OneParamClaimsAre(param: ModuleParam, p: nat, flag: string, q: nat)
    ensures Claim(flag, Some(q)) in OneParamClaims(param, p) <==> q == p && flag in Spellings(param.routes, param.short)
  {
    var spellings := Spellings(param.routes, param.short);
    if flag in spellings {
      var k :| 0 <= k < |spellings| && spellings[k] == flag;
      assert OneParamClaims(param, p)[k] == Claim(flag, Some(p));
    }
  }

  lemma {:induction false} ParamClaimsAre(params: seq<ModuleParam>, own: bool, n: nat, flag: string, p: nat)
    requires n <= |params|
    ensures Claim(flag, Some(p)) in ParamClaims(params, own, n)
       <==> p < n && params[p].own == own && flag in Spellings(params[p].routes, params[p].short)
  {
    hide OneParamClaims, Spellings;
    if n > 0 {
      ParamClaimsAre(params, own, n - 1, flag, p);
      OneParamClaimsAre(params[n - 1], n - 1, flag, p);
    }
  }

  lemma {:induction false} ParamsClaim(params: seq<ModuleParam>, own: bool, n: nat)
    requires n <= |params|
    ensures forall c :: c in ParamClaims(params, own, n) ==> c.claimant.Some?
  {
    if n > 0 {
      ParamsClaim(params, own, n - 1);
    }
  }

  /** The option flags the host has already claimed. */
  function HostClaims(reserved: set<string>): Claims {
    map flag | flag in reserved :: [None]
  }

  /** The four levels, as claims. */
  ghost predicate Levels(reserved: set<string>, options: seq<ProgramOption>, params: seq<ModuleParam>, levels: seq<Claims>) {
    && |levels| == 4 && levels[0] == HostClaims(reserved) && Collects(levels[1], ProgramClaims(options))
    && Collects(levels[2], ParamClaims(params, true, |params|)) && Collects(levels[3], ParamClaims(params, false, |params|))
  }

  // ----- Entries -----

  /** The flags a module parameter has won, split by polarity. */
  datatype Entry = Entry(positive: seq<string>, negative: seq<string>, short: Option<string>, spellings: seq<string>)

  predicate Wins(winners: map<string, Claimant>, flag: string, p: nat) {
    flag in winners && winners[flag] == Some(p)
  }

  function WonBy(winners: map<string, Claimant>, flags: seq<string>, p: nat): seq<string> {
    if flags == [] then []
    else (if Wins(winners, flags[0], p) then [flags[0]] else []) + WonBy(winners, flags[1..], p)
  }

  lemma {:induction false} WonAppend(winners: map<string, Claimant>, a: seq<string>, b: seq<string>, p: nat)
    ensures WonBy(winners, a + b, p) == WonBy(winners, a, p) + WonBy(winners, b, p)
  {
    if a == [] {
      assert a + b == b;
    } else {
      assert (a + b)[1..] == a[1..] + b;
      WonAppend(winners, a[1..], b, p);
    }
  }

  lemma {:induction false} WonAre(winners: map<string, Claimant>, flags: seq<string>, p: nat, flag: string)
    ensures flag in WonBy(winners, flags, p) <==> flag in flags && Wins(winners, flag, p)
  {
    if flags != [] {
      WonAre(winners, flags[1..], p, flag);
      assert flags == [flags[0]] + flags[1..];
    }
  }

  lemma {:induction false} RouteFlagsAppend(routes: seq<Projection>, last: Projection)
    ensures RouteFlags(routes + [last]) == RouteFlags(routes) + Flags(last)
  {
    if routes == [] {
      assert routes + [last] == [last] && [last][1..] == [];
    } else {
      assert (routes + [last])[1..] == routes[1..] + [last];
      RouteFlagsAppend(routes[1..], last);
    }
  }

  /** The flags that give a parameter its value, and those that take it back. */
  function Positives(routes: seq<Projection>): seq<string> {
    if routes == [] then [] else [routes[0].flag] + Positives(routes[1..])
  }

  function Negatives(routes: seq<Projection>): seq<string> {
    if routes == [] then [] else Optional(routes[0].negative) + Negatives(routes[1..])
  }

  lemma {:induction false} PolaritiesAppend(routes: seq<Projection>, last: Projection)
    ensures Positives(routes + [last]) == Positives(routes) + [last.flag]
    ensures Negatives(routes + [last]) == Negatives(routes) + Optional(last.negative)
  {
    if routes == [] {
      assert routes + [last] == [last] && [last][1..] == [];
    } else {
      assert (routes + [last])[1..] == routes[1..] + [last];
      PolaritiesAppend(routes[1..], last);
    }
  }

  lemma WonOptional(winners: map<string, Claimant>, flag: Option<string>, p: nat)
    ensures WonBy(winners, Optional(flag), p) == if flag.Some? && Wins(winners, flag.value, p) then [flag.value] else []
  {
    if flag.Some? {
      WonOne(winners, flag.value, p);
    }
  }

  /** The flags won among the first routes, split by polarity. */
  ghost predicate Splits(winners: map<string, Claimant>, routes: seq<Projection>, p: nat,
                         positive: seq<string>, negative: seq<string>, spellings: seq<string>) {
    && positive == WonBy(winners, Positives(routes), p) && negative == WonBy(winners, Negatives(routes), p)
    && spellings == WonBy(winners, RouteFlags(routes), p)
  }

  lemma SplitsNext(winners: map<string, Claimant>, routes: seq<Projection>, projected: Projection, p: nat,
                   positive: seq<string>, negative: seq<string>, spellings: seq<string>)
    requires Splits(winners, routes, p, positive, negative, spellings)
    ensures var more := if Wins(winners, projected.flag, p) then [projected.flag] else [];
            var less := WonBy(winners, Optional(projected.negative), p);
            Splits(winners, routes + [projected], p, positive + more, negative + less, (spellings + more) + less)
  {
    PolaritiesAppend(routes, projected);
    RouteFlagsAppend(routes, projected);
    WonOne(winners, projected.flag, p);
    WonAppend(winners, Positives(routes), [projected.flag], p);
    WonAppend(winners, Negatives(routes), Optional(projected.negative), p);
    WonFlags(winners, RouteFlags(routes), projected, p);
    hide WonBy, Positives, Negatives, RouteFlags, Optional, Flags, Wins;
  }

  lemma WonOne(winners: map<string, Claimant>, flag: string, p: nat)
    ensures WonBy(winners, [flag], p) == if Wins(winners, flag, p) then [flag] else []
  {
    assert [flag][1..] == [];
  }

  lemma WonFlags(winners: map<string, Claimant>, before: seq<string>, projected: Projection, p: nat)
    ensures WonBy(winners, before + Flags(projected), p)
         == (WonBy(winners, before, p) + WonBy(winners, [projected.flag], p)) + WonBy(winners, Optional(projected.negative), p)
  {
    WonAppend(winners, before, Flags(projected), p);
    WonAppend(winners, [projected.flag], Optional(projected.negative), p);
    hide WonBy, Optional;
  }

  /** Keep the flags a parameter has won: positive ones, negative ones and the short one. */
  method MakeEntry(param: ModuleParam, p: nat, winners: map<string, Claimant>) returns (entry: Entry)
    ensures entry.positive == WonBy(winners, Positives(param.routes), p)
    ensures entry.negative == WonBy(winners, Negatives(param.routes), p)
    ensures entry.short == if param.short.Some? && Wins(winners, param.short.value, p) then param.short else None
    ensures entry.spellings == WonBy(winners, Spellings(param.routes, param.short), p)
  {
    var positive, negative, spellings := [], [], [];
    for k := 0 to |param.routes|
      invariant Splits(winners, param.routes[..k], p, positive, negative, spellings)
    {
      var projected := param.routes[k];
      assert param.routes[..k + 1] == param.routes[..k] + [projected];
      SplitsNext(winners, param.routes[..k], projected, p, positive, negative, spellings);
      WonOptional(winners, projected.negative, p);
      if Wins(winners, projected.flag, p) {
        positive, spellings := positive + [projected.flag], spellings + [projected.flag];
      }
      if projected.negative.Some? && Wins(winners, projected.negative.value, p) {
        negative, spellings := negative + [projected.negative.value], spellings + [projected.negative.value];
      }
    }
    assert param.routes[..|param.routes|] == param.routes;
    WonAppend(winners, RouteFlags(param.routes), Optional(param.short), p);
    WonOptional(winners, param.short, p);
    var short := if param.short.Some? && Wins(winners, param.short.value, p) then param.short else None;
    entry := Entry(positive, negative, short, spellings + Optional(short));
  }

  // ----- The command -----

  datatype Command = Command(options: seq<ProgramOption>, entries: seq<Entry>, ambiguous: map<string, seq<nat>>)

  datatype Built = Rejected(collision: Collision) | Success(command: Command)

  /** A flag's owner: the host, one program option, one module parameter, or the sentinel that rejects it. */
  datatype Owner = Host | OfOption(option: nat) | OfParam(param: nat) | Sentinel(params: seq<nat>)

  ghost predicate Owns(reserved: set<string>, command: Command, owner: Owner, flag: string) {
    match owner
    case Host => flag in reserved
    case OfOption(i) => i < |command.options| && flag in OptionSpellings(command.options[i])
    case OfParam(p) => p < |command.entries| && flag in command.entries[p].spellings
    case Sentinel(params) => flag in command.ambiguous && command.ambiguous[flag] == params
  }

  ghost predicate Programmed(options: seq<ProgramOption>, flag: string) {
    exists i :: 0 <= i < |options| && flag in OptionSpellings(options[i])
  }

  /** What module parameters make of a flag: those of the program's own module before those imported. */
  function ModuleVerdict(params: seq<ModuleParam>, flag: string): Verdict {
    var own := Claimants(ParamClaims(params, true, |params|), flag);
    Judge(if own != [] then own else Claimants(ParamClaims(params, false, |params|), flag))
  }

  /** Whose a flag should be: the host's before the program's before a module parameter's. */
  ghost predicate Rightful(reserved: set<string>, options: seq<ProgramOption>, params: seq<ModuleParam>, owner: Owner,
                           flag: string) {
    match owner
    case Host => flag in reserved
    case OfOption(i) => i < |options| && flag in OptionSpellings(options[i])
    case OfParam(p) => flag !in reserved && !Programmed(options, flag) && ModuleVerdict(params, flag) == Won(Some(p))
    case Sentinel(ps) => flag !in reserved && !Programmed(options, flag) && ModuleVerdict(params, flag) == Ambiguous(ps)
  }

  lemma DemandAt(options: seq<ProgramOption>, i: nat, flag: string)
    returns (k: nat)
    requires i < |options| && flag in OptionSpellings(options[i])
    ensures k < |Demands(options)| && Demands(options)[k] == Demand(flag, options[i].name)
    ensures |Demands(options[..i])| <= k < |Demands(options[..i + 1])|
  {
    var j :| 0 <= j < |OptionSpellings(options[i])| && OptionSpellings(options[i])[j] == flag;
    DemandsOf(options, i);
    k := |Demands(options[..i])| + j;
  }

  lemma {:induction false} DemandsGrow(options: seq<ProgramOption>, m: nat, n: nat)
    requires m <= n <= |options|
    ensures |Demands(options[..m])| <= |Demands(options[..n])|
  {
    DemandsPrefix(options[..n], m);
    assert options[..n][..m] == options[..m];
  }

  /** Without collisions no flag is demanded by two options, nor reserved. */
  lemma OneOption(reserved: set<string>, options: seq<ProgramOption>, flag: string, i: nat, j: nat)
    requires CollisionFree(reserved, options) && i < |options| && j < |options|
    requires flag in OptionSpellings(options[i]) && flag in OptionSpellings(options[j])
    ensures i == j && flag !in reserved
  {
    var k := DemandAt(options, i, flag);
    assert !Collides(Demands(options), reserved, k);
    if i < j {
      DemandsLater(reserved, options, flag, i, j);
    } else if j < i {
      DemandsLater(reserved, options, flag, j, i);
    }
  }

  lemma DemandsLater(reserved: set<string>, options: seq<ProgramOption>, flag: string, i: nat, j: nat)
    requires i < j < |options| && flag in OptionSpellings(options[i]) && flag in OptionSpellings(options[j])
    ensures !CollisionFree(reserved, options)
  {
    var k := DemandAt(options, i, flag);
    var l := DemandAt(options, j, flag);
    DemandsGrow(options, i + 1, j);
    assert Collides(Demands(options), reserved, l);
  }

  lemma {:induction false} OneClaimant(claims: seq<Claim>, i: nat)
    requires i < |claims| && forall j :: 0 <= j < |claims| && j != i ==> claims[j].spelling != claims[i].spelling
    ensures Claimants(claims, claims[i].spelling) == [claims[i].claimant]
  {
    var n := |claims| - 1;
    if i < n {
      OneClaimant(claims[..n], i);
    } else {
      NoClaimant(claims[..n], claims[i].spelling);
    }
  }

  lemma {:induction false} NoClaimant(claims: seq<Claim>, spelling: string)
    requires forall j :: 0 <= j < |claims| ==> claims[j].spelling != spelling
    ensures Claimants(claims, spelling) == []
  {
    if claims != [] {
      NoClaimant(claims[..|claims| - 1], spelling);
    }
  }

  lemma ProgramVerdict(reserved: set<string>, options: seq<ProgramOption>, flag: string)
    requires CollisionFree(reserved, options)
    ensures Claimants(ProgramClaims(options), flag) == if Programmed(options, flag) then [None] else []
  {
    var demands, claims := Demands(options), ProgramClaims(options);
    if Programmed(options, flag) {
      var i :| 0 <= i < |options| && flag in OptionSpellings(options[i]);
      var k := DemandAt(options, i, flag);
      forall j | 0 <= j < |demands| && j != k
        ensures demands[j].flag != flag
      {
        assert !Collides(demands, reserved, j) && !Collides(demands, reserved, k);
      }
      OneClaimant(claims, k);
    } else {
      forall j | 0 <= j < |claims|
        ensures claims[j].spelling != flag
      {
        DemandIsMade(options, j);
      }
      NoClaimant(claims, flag);
    }
  }

  lemma {:induction false} DemandIsMade(options: seq<ProgramOption>, k: nat)
    requires k < |Demands(options)|
    ensures Programmed(options, Demands(options)[k].flag)
  {
    var n := |options| - 1;
    if k < |Demands(options[..n])| {
      DemandIsMade(options[..n], k);
      var i :| 0 <= i < n && Demands(options)[k].flag in OptionSpellings(options[..n][i]);
      assert Demands(options)[k].flag in OptionSpellings(options[i]);
    } else {
      var j := k - |Demands(options[..n])|;
      assert Demands(options)[k] == Demanded(options[n])[j];
      assert Demands(options)[k].flag in OptionSpellings(options[n]);
    }
  }

  /** The levels decide a flag as its rightful owner says. */
  lemma LevelsDecide(reserved: set<string>, options: seq<ProgramOption>, params: seq<ModuleParam>, levels: seq<Claims>,
                     flag: string)
    requires CollisionFree(reserved, options) && Levels(reserved, options, params, levels)
    ensures Verdicts(levels, flag) == if flag in reserved || Programmed(options, flag) then Won(None) else ModuleVerdict(params, flag)
  {
    ProgramVerdict(reserved, options, flag);
    var at := FirstLevel(levels, flag);
    if at < 4 {
      assert at == 0 || at == 1 || at == 2 || at == 3;
    }
  }

  lemma ModuleVerdictClaims(params: seq<ModuleParam>, flag: string, p: nat)
    requires ModuleVerdict(params, flag) == Won(Some(p))
    ensures p < |params| && flag in Spellings(params[p].routes, params[p].short)
  {
    var own := Claimants(ParamClaims(params, true, |params|), flag);
    var imported := Claimants(ParamClaims(params, false, |params|), flag);
    ClaimantsAre(ParamClaims(params, true, |params|), flag, Some(p));
    ClaimantsAre(ParamClaims(params, false, |params|), flag, Some(p));
    ParamClaimsAre(params, true, |params|, flag, p);
    ParamClaimsAre(params, false, |params|, flag, p);
    assert (if own != [] then own else imported)[0] == Some(p);
  }

  ghost predicate EntriesAre(params: seq<ModuleParam>, winners: map<string, Claimant>, entries: seq<Entry>, n: nat)
    requires n <= |params|
  {
    |entries| == n && forall p :: 0 <= p < n ==> EntryIs(params[p], p, winners, entries[p])
  }

  ghost predicate EntryIs(param: ModuleParam, p: nat, winners: map<string, Claimant>, entry: Entry) {
    && entry.positive == WonBy(winners, Positives(param.routes), p)
    && entry.negative == WonBy(winners, Negatives(param.routes), p)
    && entry.short == (if param.short.Some? && Wins(winners, param.short.value, p) then param.short else None)
    && entry.spellings == WonBy(winners, Spellings(param.routes, param.short), p)
  }

  lemma {:induction false} PolaritiesAre(routes: seq<Projection>, flag: string)
    ensures flag in Positives(routes) <==> exists k :: 0 <= k < |routes| && routes[k].flag == flag
    ensures flag in Negatives(routes) <==> exists k :: 0 <= k < |routes| && routes[k].negative == Some(flag)
  {
    if routes != [] {
      PolaritiesAre(routes[1..], flag);
      assert routes == [routes[0]] + routes[1..];
      assert flag in Optional(routes[0].negative) <==> routes[0].negative == Some(flag);
      assert forall k :: 0 <= k < |routes[1..]| ==> routes[1..][k] == routes[k + 1];
    }
  }

  /** A flag stands at a place of a parameter: route k's flag at 2k, its negative at 2k + 1, the short flag last. */
  predicate ClaimedAt(param: ModuleParam, place: nat, flag: string) {
    var n := |param.routes|;
    if place < 2 * n
    then if place % 2 == 0 then param.routes[place / 2].flag == flag else param.routes[place / 2].negative == Some(flag)
    else place == 2 * n && param.short == Some(flag)
  }

  ghost predicate Unclaimed(param: ModuleParam, place: nat) {
    forall flag :: !ClaimedAt(param, place, flag)
  }

  /** Flags come in the order of their places. */
  ghost predicate InOrder(param: ModuleParam, flags: seq<string>, places: seq<nat>) {
    && |places| == |flags|
    && (forall i :: 0 <= i < |flags| ==> ClaimedAt(param, places[i], flags[i]))
    && (forall i, j :: 0 <= i < j < |places| ==> places[i] < places[j])
  }

  ghost predicate Ordered(param: ModuleParam, flags: seq<string>) {
    exists places :: InOrder(param, flags, places)
  }

  lemma OrderNext(param: ModuleParam, flags: seq<string>, places: seq<nat>, flag: Option<string>, place: nat)
    requires InOrder(param, flags, places) && forall q :: q in places ==> q < place
    requires flag.Some? ==> ClaimedAt(param, place, flag.value)
    ensures InOrder(param, flags + Optional(flag), if flag.Some? then places + [place] else places)
  {
    hide ClaimedAt;
    if flag.Some? {
      var longer, all := places + [place], flags + [flag.value];
      assert flags + Optional(flag) == all;
      forall i | 0 <= i < |places|
        ensures longer[i] < place
      {
        assert places[i] in places;
      }
      forall i | 0 <= i < |all|
        ensures ClaimedAt(param, longer[i], all[i])
      {
        if i < |flags| {
          assert ClaimedAt(param, places[i], flags[i]);
        }
      }
    } else {
      assert flags + [] == flags;
    }
  }

  /** The flags of the first n routes in order, of either polarity and of both. */
  ghost predicate RoutesInOrder(param: ModuleParam, n: nat, positive: seq<nat>, negative: seq<nat>, both: seq<nat>)
    requires n <= |param.routes|
  {
    var routes := param.routes[..n];
    && InOrder(param, Positives(routes), positive) && InOrder(param, Negatives(routes), negative)
    && InOrder(param, RouteFlags(routes), both)
    && (forall place :: place in positive || place in negative || place in both ==> place < 2 * n)
    && forall place: nat, flag :: place < 2 * n && ClaimedAt(param, place, flag) ==> place in both
  }

  lemma {:induction false} RoutesAreInOrder(param: ModuleParam, n: nat)
    returns (positive: seq<nat>, negative: seq<nat>, both: seq<nat>)
    requires n <= |param.routes|
    ensures RoutesInOrder(param, n, positive, negative, both)
  {
    hide ClaimedAt, InOrder, Positives, Negatives, RouteFlags;
    positive, negative, both := [], [], [];
    if n == 0 {
      NoRoutesInOrder(param);
    } else {
      var m := n - 1;
      var route := param.routes[m];
      assert param.routes[..n] == param.routes[..m] + [route];
      PolaritiesAppend(param.routes[..m], route);
      RouteFlagsAppend(param.routes[..m], route);
      positive, negative, both := RoutesAreInOrder(param, m);
      RouteClaims(param, m);
      OrderNext(param, Positives(param.routes[..m]), positive, Some(route.flag), 2 * m);
      OrderNext(param, Negatives(param.routes[..m]), negative, route.negative, 2 * m + 1);
      OrderNext(param, RouteFlags(param.routes[..m]), both, Some(route.flag), 2 * m);
      both := both + [2 * m];
      OrderNext(param, RouteFlags(param.routes[..m]) + [route.flag], both, route.negative, 2 * m + 1);
      assert RouteFlags(param.routes[..n]) == RouteFlags(param.routes[..m]) + [route.flag] + Optional(route.negative);
      positive := positive + [2 * m];
      if route.negative.Some? {
        negative, both := negative + [2 * m + 1], both + [2 * m + 1];
      }
    }
  }

  lemma NothingInOrder(param: ModuleParam)
    ensures InOrder(param, [], [])
  {
  }

  lemma NoRoutesInOrder(param: ModuleParam)
    ensures RoutesInOrder(param, 0, [], [], [])
  {
  }

  lemma RouteClaims(param: ModuleParam, k: nat)
    requires k < |param.routes|
    ensures param.routes[k].negative.None? ==> Unclaimed(param, 2 * k + 1)
    ensures ClaimedAt(param, 2 * k, param.routes[k].flag)
    ensures param.routes[k].negative.Some? ==> ClaimedAt(param, 2 * k + 1, param.routes[k].negative.value)
  {
  }

  /** A parameter's flags are listed in the order of their places, all of them. */
  lemma SpellingsInOrder(param: ModuleParam) returns (places: seq<nat>)
    ensures InOrder(param, Spellings(param.routes, param.short), places)
    ensures forall place: nat, flag :: ClaimedAt(param, place, flag) ==> place in places
    ensures Ordered(param, Positives(param.routes))
    ensures Ordered(param, Negatives(param.routes))
  {
    var n := |param.routes|;
    var positive, negative, both := RoutesAreInOrder(param, n);
    assert param.routes[..n] == param.routes;
    OrderNext(param, RouteFlags(param.routes), both, param.short, 2 * n);
    places := if param.short.Some? then both + [2 * n] else both;
  }

  /** What is won of an ordered list is in order. */
  lemma {:induction false} WonInOrder(param: ModuleParam, winners: map<string, Claimant>, flags: seq<string>, p: nat, places: seq<nat>)
    returns (won: seq<nat>)
    requires InOrder(param, flags, places)
    ensures InOrder(param, WonBy(winners, flags, p), won) && forall place :: place in won ==> place in places
  {
    hide ClaimedAt;
    won := [];
    if flags == [] {
      NothingInOrder(param);
    } else {
      won := WonInOrder(param, winners, flags[1..], p, places[1..]);
      if Wins(winners, flags[0], p) {
        FirstInOrder(param, flags[0], places[0], WonBy(winners, flags[1..], p), won);
        won := [places[0]] + won;
      } else {
        assert WonBy(winners, flags, p) == WonBy(winners, flags[1..], p);
      }
    }
  }

  lemma FirstInOrder(param: ModuleParam, flag: string, place: nat, flags: seq<string>, places: seq<nat>)
    requires ClaimedAt(param, place, flag) && InOrder(param, flags, places) && forall q :: q in places ==> place < q
    ensures InOrder(param, [flag] + flags, [place] + places)
  {
    hide ClaimedAt;
    var longer, all := [place] + places, [flag] + flags;
    forall i | 0 <= i < |all|
      ensures ClaimedAt(param, longer[i], all[i])
    {
      if i > 0 {
        assert ClaimedAt(param, places[i - 1], flags[i - 1]);
      }
    }
    assert forall j :: 0 <= j < |places| ==> places[j] in places && place < places[j];
  }

  /** Each of an entry's lists holds exactly the flags of its polarity that the parameter rightfully owns, in order. */
  ghost predicate EntryIsRightful(reserved: set<string>, options: seq<ProgramOption>, params: seq<ModuleParam>, p: nat, entry: Entry)
    requires p < |params|
  {
    && (forall flag :: flag in entry.positive <==>
          Rightful(reserved, options, params, OfParam(p), flag) && exists k :: 0 <= k < |params[p].routes| && params[p].routes[k].flag == flag)
    && (forall flag :: flag in entry.negative <==>
          Rightful(reserved, options, params, OfParam(p), flag) && exists k :: 0 <= k < |params[p].routes| && params[p].routes[k].negative == Some(flag))
    && (forall flag :: entry.short == Some(flag) <==> Rightful(reserved, options, params, OfParam(p), flag) && params[p].short == Some(flag))
    && (forall flag :: flag in entry.spellings <==> Rightful(reserved, options, params, OfParam(p), flag))
    && Ordered(params[p], entry.positive)
    && Ordered(params[p], entry.negative)
    && Ordered(params[p], entry.spellings)
  }

  lemma EntryInOrder(params: seq<ModuleParam>, winners: map<string, Claimant>, p: nat, entry: Entry)
    requires p < |params| && EntryIs(params[p], p, winners, entry)
    ensures Ordered(params[p], entry.positive)
    ensures Ordered(params[p], entry.negative)
    ensures Ordered(params[p], entry.spellings)
  {
    hide InOrder, WonBy, Positives, Negatives, Spellings;
    var places := SpellingsInOrder(params[p]);
    var positive :| InOrder(params[p], Positives(params[p].routes), positive);
    var negative :| InOrder(params[p], Negatives(params[p].routes), negative);
    positive := WonInOrder(params[p], winners, Positives(params[p].routes), p, positive);
    negative := WonInOrder(params[p], winners, Negatives(params[p].routes), p, negative);
    places := WonInOrder(params[p], winners, Spellings(params[p].routes, params[p].short), p, places);
  }

  /** Among a parameter's flags, those won are those rightfully owned. */
  lemma WinsIsRightful(reserved: set<string>, options: seq<ProgramOption>, params: seq<ModuleParam>, levels: seq<Claims>,
                       winners: map<string, Claimant>, ambiguous: map<string, seq<nat>>, p: nat, flag: string)
    requires CollisionFree(reserved, options) && Levels(reserved, options, params, levels) && Resolved(levels, winners, ambiguous)
    ensures Wins(winners, flag, p) <==> Rightful(reserved, options, params, OfParam(p), flag)
    ensures Rightful(reserved, options, params, OfParam(p), flag) ==>
              p < |params| && flag in Spellings(params[p].routes, params[p].short)
  {
    LevelsDecide(reserved, options, params, levels, flag);
    if Rightful(reserved, options, params, OfParam(p), flag) {
      ModuleVerdictClaims(params, flag, p);
    }
  }

  lemma EntryRightful(reserved: set<string>, options: seq<ProgramOption>, params: seq<ModuleParam>, levels: seq<Claims>,
                      winners: map<string, Claimant>, ambiguous: map<string, seq<nat>>, p: nat, entry: Entry)
    requires CollisionFree(reserved, options) && Levels(reserved, options, params, levels) && Resolved(levels, winners, ambiguous)
    requires p < |params| && EntryIs(params[p], p, winners, entry)
    ensures EntryIsRightful(reserved, options, params, p, entry)
  {
    hide Rightful, Wins, WonBy, Positives, Negatives, Spellings, Ordered, Levels, Resolved, CollisionFree;
    EntryInOrder(params, winners, p, entry);
    forall flag
      ensures Wins(winners, flag, p) <==> Rightful(reserved, options, params, OfParam(p), flag)
      ensures Rightful(reserved, options, params, OfParam(p), flag) ==> flag in Spellings(params[p].routes, params[p].short)
      ensures flag in Positives(params[p].routes) <==> exists k :: 0 <= k < |params[p].routes| && params[p].routes[k].flag == flag
      ensures flag in Negatives(params[p].routes) <==> exists k :: 0 <= k < |params[p].routes| && params[p].routes[k].negative == Some(flag)
      ensures flag in entry.positive <==> flag in Positives(params[p].routes) && Wins(winners, flag, p)
      ensures flag in entry.negative <==> flag in Negatives(params[p].routes) && Wins(winners, flag, p)
      ensures flag in entry.spellings <==> flag in Spellings(params[p].routes, params[p].short) && Wins(winners, flag, p)
    {
      WinsIsRightful(reserved, options, params, levels, winners, ambiguous, p, flag);
      PolaritiesAre(params[p].routes, flag);
      WonAre(winners, Positives(params[p].routes), p, flag);
      WonAre(winners, Negatives(params[p].routes), p, flag);
      WonAre(winners, Spellings(params[p].routes, params[p].short), p, flag);
    }
  }

  lemma OwnersAreRightful(reserved: set<string>, options: seq<ProgramOption>, params: seq<ModuleParam>, levels: seq<Claims>,
                          winners: map<string, Claimant>, command: Command, owner: Owner, flag: string)
    requires CollisionFree(reserved, options) && Levels(reserved, options, params, levels) && Resolved(levels, winners, command.ambiguous)
    requires command.options == options && EntriesAre(params, winners, command.entries, |params|)
    ensures Owns(reserved, command, owner, flag) <==> Rightful(reserved, options, params, owner, flag)
  {
    LevelsDecide(reserved, options, params, levels, flag);
    match owner
    case Host =>
    case OfOption(i) =>
    case OfParam(p) =>
      if p < |params| {
        assert EntryIs(params[p], p, winners, command.entries[p]);
        WonAre(winners, Spellings(params[p].routes, params[p].short), p, flag);
      }
      if Rightful(reserved, options, params, owner, flag) {
        ModuleVerdictClaims(params, flag, p);
      }
    case Sentinel(ps) =>
  }

  /** No flag has two owners. */
  lemma OneOwner(reserved: set<string>, options: seq<ProgramOption>, params: seq<ModuleParam>, flag: string, a: Owner, b: Owner)
    requires CollisionFree(reserved, options)
    requires Rightful(reserved, options, params, a, flag) && Rightful(reserved, options, params, b, flag)
    ensures a == b
  {
    assert forall i :: 0 <= i < |options| && flag in OptionSpellings(options[i]) ==> Programmed(options, flag);
    if a.OfOption? {
      OneOption(reserved, options, flag, a.option, if b.OfOption? then b.option else a.option);
    } else if b.OfOption? {
      OneOption(reserved, options, flag, b.option, b.option);
    }
  }

  lemma {:induction false} ParamsOf(claimants: seq<Claimant>)
    requires claimants != [] && forall c :: c in claimants ==> c.Some?
    ensures Params(claimants) != []
  {
    assert claimants[0] in claimants;
  }

  lemma {:induction false} AllParams(claims: seq<Claim>, flag: string)
    requires forall c :: c in claims ==> c.claimant.Some?
    ensures forall c :: c in Claimants(claims, flag) ==> c.Some?
  {
    forall c | c in Claimants(claims, flag)
      ensures c.Some?
    {
      ClaimantsAre(claims, flag, c);
    }
  }

  /** Every flag that anything claims has an owner. */
  lemma EveryClaimIsOwned(reserved: set<string>, options: seq<ProgramOption>, params: seq<ModuleParam>, flag: string)
    requires flag in reserved || Programmed(options, flag)
          || exists p :: 0 <= p < |params| && flag in Spellings(params[p].routes, params[p].short)
    ensures exists owner :: Rightful(reserved, options, params, owner, flag)
  {
    if flag in reserved {
      assert Rightful(reserved, options, params, Host, flag);
    } else if Programmed(options, flag) {
      var i: nat :| i < |options| && flag in OptionSpellings(options[i]);
      assert Rightful(reserved, options, params, OfOption(i), flag);
    } else {
      var p :| 0 <= p < |params| && flag in Spellings(params[p].routes, params[p].short);
      var ownClaims, importedClaims := ParamClaims(params, true, |params|), ParamClaims(params, false, |params|);
      var claims := if Claimants(ownClaims, flag) != [] then ownClaims else importedClaims;
      ParamClaimsAre(params, true, |params|, flag, p);
      ParamClaimsAre(params, false, |params|, flag, p);
      ClaimantsAre(ownClaims, flag, Some(p));
      ClaimantsAre(importedClaims, flag, Some(p));
      ParamsClaim(params, true, |params|);
      ParamsClaim(params, false, |params|);
      AllParams(claims, flag);
      var claimants := Claimants(claims, flag);
      ParamsOf(claimants);
      if |claimants| == 1 {
        assert claimants[0] in claimants;
        assert Rightful(reserved, options, params, OfParam(claimants[0].value), flag);
      } else {
        assert Rightful(reserved, options, params, Sentinel(Params(claimants)), flag);
      }
    }
  }

  /** Every flag of a command is owned by whom it should be. */
  ghost predicate OwnedRightly(reserved: set<string>, options: seq<ProgramOption>, params: seq<ModuleParam>, command: Command) {
    forall owner, flag :: Owns(reserved, command, owner, flag) <==> Rightful(reserved, options, params, owner, flag)
  }

  lemma AllOwnersAreRightful(reserved: set<string>, options: seq<ProgramOption>, params: seq<ModuleParam>, levels: seq<Claims>,
                             winners: map<string, Claimant>, command: Command)
    requires CollisionFree(reserved, options) && Levels(reserved, options, params, levels) && Resolved(levels, winners, command.ambiguous)
    requires command.options == options && EntriesAre(params, winners, command.entries, |params|)
    ensures OwnedRightly(reserved, options, params, command)
  {
    forall owner, flag
      ensures Owns(reserved, command, owner, flag) <==> Rightful(reserved, options, params, owner, flag)
    {
      OwnersAreRightful(reserved, options, params, levels, winners, command, owner, flag);
    }
  }

  /** Resolve the option flags of the host, the program, its own module's parameters and imported ones. */
  method ResolveOptions(reserved: set<string>, options: seq<ProgramOption>, params: seq<ModuleParam>)
    returns (winners: map<string, Claimant>, ambiguous: map<string, seq<nat>>, ghost levels: seq<Claims>)
    ensures Levels(reserved, options, params, levels) && Resolved(levels, winners, ambiguous)
  {
    var program := CollectClaims(ProgramClaims(options));
    var own := CollectClaims(ParamClaims(params, true, |params|));
    var imported := CollectClaims(ParamClaims(params, false, |params|));
    var claims := [HostClaims(reserved), program, own, imported];
    levels := claims;
    winners, ambiguous := ResolveClaims(claims);
  }

  lemma EntriesNext(params: seq<ModuleParam>, winners: map<string, Claimant>, entries: seq<Entry>, p: nat, entry: Entry)
    requires p < |params| && EntriesAre(params, winners, entries, p)
    requires EntryIs(params[p], p, winners, entry)
    ensures EntriesAre(params, winners, entries + [entry], p + 1)
  {
    hide EntryIs;
  }

  method MakeEntries(params: seq<ModuleParam>, winners: map<string, Claimant>) returns (entries: seq<Entry>)
    ensures EntriesAre(params, winners, entries, |params|)
  {
    entries := [];
    for p := 0 to |params|
      invariant EntriesAre(params, winners, entries, p)
    {
      var entry := MakeEntry(params[p], p, winners);
      EntriesNext(params, winners, entries, p, entry);
      entries := entries + [entry];
    }
  }

  lemma EntriesRightful(reserved: set<string>, options: seq<ProgramOption>, params: seq<ModuleParam>, levels: seq<Claims>,
                        winners: map<string, Claimant>, ambiguous: map<string, seq<nat>>, entries: seq<Entry>)
    requires CollisionFree(reserved, options) && Levels(reserved, options, params, levels) && Resolved(levels, winners, ambiguous)
    requires EntriesAre(params, winners, entries, |params|)
    ensures forall p: nat :: p < |params| ==> EntryIsRightful(reserved, options, params, p, entries[p])
  {
    hide CollisionFree, Levels, Resolved, EntryIs, EntryIsRightful;
    forall p: nat | p < |params|
      ensures EntryIsRightful(reserved, options, params, p, entries[p])
    {
      EntryRightful(reserved, options, params, levels, winners, ambiguous, p, entries[p]);
    }
  }

  /** Build a program's command, checking flag reservation first. */
  method BuildProgramCommand(reserved: set<string>, options: seq<ProgramOption>, params: seq<ModuleParam>) returns (built: Built)
    ensures built.Success? <==> CollisionFree(reserved, options)
    ensures built.Rejected? ==> SomeFirst(Demands(options), reserved, built.collision)
    ensures built.Success? ==> OwnedRightly(reserved, options, params, built.command)
    ensures built.Success? ==> built.command.options == options && |built.command.entries| == |params|
    ensures built.Success? ==>
              forall p: nat, flag :: p < |params| ==>
                var entry, rightful := built.command.entries[p], Rightful(reserved, options, params, OfParam(p), flag);
                && (flag in entry.positive <==> rightful && exists k :: 0 <= k < |params[p].routes| && params[p].routes[k].flag == flag)
                && (flag in entry.negative <==> rightful && exists k :: 0 <= k < |params[p].routes| && params[p].routes[k].negative == Some(flag))
                && (entry.short == Some(flag) <==> rightful && params[p].short == Some(flag))
                && (flag in entry.spellings <==> rightful)
    ensures built.Success? ==>
              forall p: nat :: p < |params| ==>
                && Ordered(params[p], built.command.entries[p].positive)
                && Ordered(params[p], built.command.entries[p].negative)
                && Ordered(params[p], built.command.entries[p].spellings)
  {
    hide CollisionFree, SomeFirst, OwnedRightly, Rightful, Ordered, Levels, Resolved, EntryIs;
    var collision := CheckReservation(options, reserved);
    if collision.Some? {
      return Rejected(collision.value);
    }
    var winners, ambiguous, levels := ResolveOptions(reserved, options, params);
    var entries := MakeEntries(params, winners);
    var command := Command(options, entries, ambiguous);
    AllOwnersAreRightful(reserved, options, params, levels, winners, command);
    EntriesRightful(reserved, options, params, levels, winners, ambiguous, entries);
    built := Success(command);
  }
}
