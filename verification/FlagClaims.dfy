/** Claims on command-line spellings, resolved level by level.

    The first level that mentions a spelling decides it. */
module FlagClaims {
  import opened Options

  /** A module parameter's identity, or the host or program, which only take spellings away. */
  type Claimant = Option<nat>

  /** One level's claims: for each spelling, who claims it, in order. */
  type Claims = map<string, seq<Claimant>>

  /** A claim as it is made. */
  datatype Claim = Claim(spelling: string, claimant: Claimant)

  function Claimants(claims: seq<Claim>, spelling: string): seq<Claimant> {
    if claims == [] then []
    else
      var n := |claims| - 1;
      Claimants(claims[..n], spelling) + if claims[n].spelling == spelling then [claims[n].claimant] else []
  }

  /** A level holds, for each spelling claimed, its claimants. */
  ghost predicate Collects(level: Claims, claims: seq<Claim>) {
    forall spelling :: (spelling in level <==> Claimants(claims, spelling) != [])
                       && (spelling in level ==> level[spelling] == Claimants(claims, spelling))
  }

  method CollectClaims(claims: seq<Claim>) returns (level: Claims)
    ensures Collects(level, claims)
  {
    level := map[];
    for k := 0 to |claims|
      invariant Collects(level, claims[..k])
    {
      var claim := claims[k];
      assert claims[..k + 1][..k] == claims[..k];
      level := level[claim.spelling := (if claim.spelling in level then level[claim.spelling] else []) + [claim.claimant]];
    }
    assert claims[..|claims|] == claims;
  }

  lemma {:induction false} ClaimantsAre(claims: seq<Claim>, spelling: string, c: Claimant)
    ensures c in Claimants(claims, spelling) <==> Claim(spelling, c) in claims
  {
    if claims != [] {
      var n := |claims| - 1;
      ClaimantsAre(claims[..n], spelling, c);
      assert claims == claims[..n] + [claims[n]];
    }
  }

  // ----- Resolving levels -----

  /** The first level, if any, that mentions a spelling. */
  function FirstLevel(levels: seq<Claims>, spelling: string): (at: nat)
    ensures at <= |levels| && (at < |levels| ==> spelling in levels[at])
    ensures forall i :: 0 <= i < at ==> spelling !in levels[i]
  {
    if levels == [] || spelling in levels[0] then 0 else 1 + FirstLevel(levels[1..], spelling)
  }

  function Params(claimants: seq<Claimant>): seq<nat> {
    if claimants == [] then []
    else (if claimants[0].Some? then [claimants[0].value] else []) + Params(claimants[1..])
  }

  datatype Verdict = Unclaimed | Won(claimant: Claimant) | Ambiguous(params: seq<nat>)

  /** What the claimants of one level make of a spelling: among several, only parameters are ambiguous. */
  function Judge(claimants: seq<Claimant>): Verdict {
    if |claimants| == 1 then Won(claimants[0])
    else if Params(claimants) != [] then Ambiguous(Params(claimants))
    else Unclaimed
  }

  function Verdicts(levels: seq<Claims>, spelling: string): Verdict {
    var at := FirstLevel(levels, spelling);
    if at < |levels| then Judge(levels[at][spelling]) else Unclaimed
  }

  /** Winners and ambiguities are what the verdicts say. */
  ghost predicate Resolved(levels: seq<Claims>, winners: map<string, Claimant>, ambiguous: map<string, seq<nat>>) {
    && (forall spelling :: spelling in winners <==> Verdicts(levels, spelling).Won?)
    && (forall spelling :: spelling in winners ==> Verdicts(levels, spelling) == Won(winners[spelling]))
    && (forall spelling :: spelling in ambiguous <==> Verdicts(levels, spelling).Ambiguous?)
    && (forall spelling :: spelling in ambiguous ==> Verdicts(levels, spelling) == Ambiguous(ambiguous[spelling]))
  }

  /** The state of resolving: levels before k are done, and of level k all but `pending`. */
  ghost predicate Resolving(levels: seq<Claims>, k: nat, pending: set<string>, winners: map<string, Claimant>,
                            ambiguous: map<string, seq<nat>>, claimed: set<string>)
    requires k <= |levels|
  {
    && (forall spelling :: spelling in claimed <==>
          FirstLevel(levels, spelling) < k || (k < |levels| && spelling in levels[k] && spelling !in pending))
    && (forall spelling :: spelling in winners <==> spelling in claimed && Verdicts(levels, spelling).Won?)
    && (forall spelling :: spelling in winners ==> Verdicts(levels, spelling) == Won(winners[spelling]))
    && (forall spelling :: spelling in ambiguous <==> spelling in claimed && Verdicts(levels, spelling).Ambiguous?)
    && (forall spelling :: spelling in ambiguous ==> Verdicts(levels, spelling) == Ambiguous(ambiguous[spelling]))
  }

  lemma FirstLevelIs(levels: seq<Claims>, spelling: string, k: nat)
    requires k < |levels| && spelling in levels[k]
    ensures FirstLevel(levels, spelling) <= k
    ensures FirstLevel(levels, spelling) >= k ==> Verdicts(levels, spelling) == Judge(levels[k][spelling])
  {
  }

  lemma NextLevel(levels: seq<Claims>, k: nat, winners: map<string, Claimant>, ambiguous: map<string, seq<nat>>,
                  claimed: set<string>)
    requires k < |levels| && Resolving(levels, k, {}, winners, ambiguous, claimed)
    ensures Resolving(levels, k + 1, if k + 1 < |levels| then levels[k + 1].Keys else {}, winners, ambiguous, claimed)
  {
    hide FirstLevel, Verdicts;
    forall spelling
      ensures FirstLevel(levels, spelling) < k + 1 <==> FirstLevel(levels, spelling) < k || spelling in levels[k]
    {
    }
  }

  lemma ResolvingStarts(levels: seq<Claims>)
    ensures Resolving(levels, 0, if |levels| > 0 then levels[0].Keys else {}, map[], map[], {})
  {
  }

  lemma PassClaimed(levels: seq<Claims>, k: nat, pending: set<string>, winners: map<string, Claimant>,
                    ambiguous: map<string, seq<nat>>, claimed: set<string>, spelling: string)
    requires k < |levels| && Resolving(levels, k, pending, winners, ambiguous, claimed) && spelling in pending && spelling in claimed
    ensures Resolving(levels, k, pending - {spelling}, winners, ambiguous, claimed)
  {
    hide FirstLevel, Verdicts;
  }

  /** A spelling that no level before has mentioned is decided by this one's claimants. */
  lemma DecideClaim(levels: seq<Claims>, k: nat, pending: set<string>, winners: map<string, Claimant>,
                    ambiguous: map<string, seq<nat>>, claimed: set<string>, spelling: string)
    requires k < |levels| && Resolving(levels, k, pending, winners, ambiguous, claimed)
    requires spelling in pending && spelling in levels[k] && spelling !in claimed
    ensures var claimants := levels[k][spelling];
            Resolving(levels, k, pending - {spelling},
                      if |claimants| == 1 then winners[spelling := claimants[0]] else winners,
                      if |claimants| != 1 && Params(claimants) != [] then ambiguous[spelling := Params(claimants)] else ambiguous,
                      claimed + {spelling})
  {
    hide FirstLevel, Verdicts, Params;
    FirstLevelIs(levels, spelling, k);
  }

  lemma ResolvingDone(levels: seq<Claims>, winners: map<string, Claimant>, ambiguous: map<string, seq<nat>>, claimed: set<string>)
    requires Resolving(levels, |levels|, {}, winners, ambiguous, claimed)
    ensures Resolved(levels, winners, ambiguous)
  {
    hide FirstLevel, Judge;
  }

  /** Resolve claims lexically, retaining ambiguities among parameters of one level. */
  method ResolveClaims(levels: seq<Claims>) returns (winners: map<string, Claimant>, ambiguous: map<string, seq<nat>>)
    ensures Resolved(levels, winners, ambiguous)
  {
    hide Resolved, Resolving, Params;
    ResolvingStarts(levels);
    winners, ambiguous := map[], map[];
    var claimed: set<string> := {};
    for k := 0 to |levels|
      invariant Resolving(levels, k, if k < |levels| then levels[k].Keys else {}, winners, ambiguous, claimed)
    {
      var pending := levels[k].Keys;
      while pending != {}
        invariant pending <= levels[k].Keys && Resolving(levels, k, pending, winners, ambiguous, claimed)
        decreases pending
      {
        var spelling :| spelling in pending;
        if spelling in claimed {
          PassClaimed(levels, k, pending, winners, ambiguous, claimed, spelling);
          pending := pending - {spelling};
          continue;
        }
        DecideClaim(levels, k, pending, winners, ambiguous, claimed, spelling);
        pending := pending - {spelling};
        claimed := claimed + {spelling};
        var claimants := levels[k][spelling];
        if |claimants| == 1 {
          winners := winners[spelling := claimants[0]];
        } else {
          var params := Params(claimants);
          if params != [] {
            ambiguous := ambiguous[spelling := params];
          }
        }
      }
      NextLevel(levels, k, winners, ambiguous, claimed);
    }
    ResolvingDone(levels, winners, ambiguous, claimed);
  }
}
