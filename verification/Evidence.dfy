/** Relational evidence: from verifier observations to the epistemic status of a claim. */
module Evidence {
  import opened Common

  datatype Epistemic = Supported | Unsupported | Contradicted

  datatype Applicability = Applicable | Inapplicable | Unresolved

  datatype ObservationStatus = Observed | Unobserved | Unavailable

  /** An ideal digest of a specification is the digested fields; anything else is a foreign text. */
  datatype SpecDigest =
    | SpecDigest(id: string, claim: string, modality: string, scope: string, candidate: Option<string>,
                 env: Option<string>, nonClaims: seq<string>, verifier: string)
    | ForeignDigest(text: string)

  datatype VerifierSpec = VerifierSpec(
    id: string, claim: string, modality: string, scope: string, candidate: Option<string>,
    env: Option<string>, minCoverage: real, nonClaims: seq<string>, verifier: string)
  {
    /** The coverage threshold is not digested. */
    function Digest(): SpecDigest { SpecDigest(id, claim, modality, scope, candidate, env, nonClaims, verifier) }
  }

  datatype ObservationDigest = ObservationDigest(
    id: string, spec: SpecDigest, command: string, exitCode: int, passed: int, failed: int,
    coverage: real, candidate: string, environment: string, status: ObservationStatus)

  datatype Observation = Observation(
    id: string, spec: SpecDigest, command: string, exitCode: int, passed: int, failed: int,
    coverage: real, candidate: string, environment: string, status: ObservationStatus,
    falsified: bool, collected: int)
  {
    /** Neither the falsification flag nor the number of collected tests is digested. */
    function Digest(): ObservationDigest {
      ObservationDigest(id, spec, command, exitCode, passed, failed, coverage, candidate, environment, status)
    }
  }

  datatype Evidence = Evidence(id: string, spec: VerifierSpec, obs: Observation) {
    function Key(): (SpecDigest, ObservationDigest) { (spec.Digest(), obs.Digest()) }
  }

  /** An empty candidate or environment asks for none in particular. */
  datatype Claim = Claim(id: string, candidate: string, environment: string)

  datatype Context = Context(candidate: string, environment: string)

  // ---- What one piece of evidence says ----

  datatype Bearing = Unusable(why: Applicability) | Contradicts | Supports | Silent

  function Weigh(claim: Claim, e: Evidence, ctx: Context): Bearing {
    var obs := e.obs;
    if obs.spec != e.spec.Digest() then Unusable(Inapplicable)
    else if e.spec.claim != claim.id then Unusable(Inapplicable)
    else if claim.candidate != "" && obs.candidate != claim.candidate then Unusable(Inapplicable)
    else if ctx.candidate != "" && obs.candidate != ctx.candidate then Unusable(Inapplicable)
    else if claim.environment != "" && obs.environment != claim.environment then Unusable(Inapplicable)
    else if ctx.environment != "" && obs.environment != ctx.environment then Unusable(Inapplicable)
    else if obs.status.Unavailable? then Unusable(Unresolved)
    else if obs.falsified then Contradicts
    else if obs.coverage < e.spec.minCoverage then Contradicts
    else if obs.exitCode == 0 && obs.failed == 0 && obs.passed > 0 then Supports
    else if obs.failed > 0 || obs.exitCode != 0 then Contradicts
    else Silent
  }

  /** Equal digests plus the two undigested facts fix what a piece of evidence says. */
  lemma {:induction false} BearingFollowsDigests(claim: Claim, ctx: Context, a: Evidence, b: Evidence)
    requires a.Key() == b.Key() && Agree(a, b)
    ensures Weigh(claim, a, ctx) == Weigh(claim, b, ctx)
  {
    assert a.spec.Digest() == b.spec.Digest() && a.obs.Digest() == b.obs.Digest();
  }

  predicate Agree(a: Evidence, b: Evidence) {
    a.obs.falsified == b.obs.falsified && a.spec.minCoverage == b.spec.minCoverage
  }

  predicate Spoils(b: Bearing) { b.Unusable? }

  predicate Refutes(b: Bearing) { b.Contradicts? }

  predicate Backs(b: Bearing) { b.Supports? }

  predicate Speaks(b: Bearing) { b.Contradicts? || b.Supports? }

  // ---- The same, field by field ----

  /** An empty demand asks for nothing in particular. */
  predicate Suits(demand: string, found: string) {
    demand == "" || demand == found
  }

  /** The observation was made under this very specification, for this claim, candidate and environment. */
  predicate BoundTo(claim: Claim, e: Evidence, ctx: Context) {
    && e.obs.spec == SpecDigest(e.spec.id, e.spec.claim, e.spec.modality, e.spec.scope, e.spec.candidate, e.spec.env,
                                e.spec.nonClaims, e.spec.verifier)
    && e.spec.claim == claim.id
    && Suits(claim.candidate, e.obs.candidate) && Suits(ctx.candidate, e.obs.candidate)
    && Suits(claim.environment, e.obs.environment) && Suits(ctx.environment, e.obs.environment)
  }

  predicate Usable(claim: Claim, e: Evidence, ctx: Context) {
    BoundTo(claim, e, ctx) && e.obs.status != Unavailable
  }

  /** Flagged as falsified, under its coverage threshold, with failing tests, or ended with an error. */
  predicate Adverse(e: Evidence) {
    e.obs.falsified || e.obs.coverage < e.spec.minCoverage || e.obs.failed > 0 || e.obs.exitCode != 0
  }

  /** Tests passed and none is counted as failed. */
  predicate Passing(e: Evidence) {
    e.obs.passed > 0 && e.obs.failed == 0
  }

  lemma {:induction false} BearingInFields(claim: Claim, e: Evidence, ctx: Context)
    ensures Weigh(claim, e, ctx) ==
            if !BoundTo(claim, e, ctx) then Unusable(Inapplicable)
            else if !Usable(claim, e, ctx) then Unusable(Unresolved)
            else if Adverse(e) then Contradicts
            else if Passing(e) then Supports
            else Silent
  {
  }

  /** Two items count as one when all digested fields agree; falsification, tests collected and threshold are none. */
  lemma {:induction false} SameKeyExactly(e: Evidence, f: Evidence)
    ensures e.Key() == f.Key() <==>
            && (e.spec.id, e.spec.claim, e.spec.modality, e.spec.scope) ==
               (f.spec.id, f.spec.claim, f.spec.modality, f.spec.scope)
            && (e.spec.candidate, e.spec.env, e.spec.nonClaims, e.spec.verifier) ==
               (f.spec.candidate, f.spec.env, f.spec.nonClaims, f.spec.verifier)
            && (e.obs.id, e.obs.spec, e.obs.command, e.obs.exitCode, e.obs.passed) ==
               (f.obs.id, f.obs.spec, f.obs.command, f.obs.exitCode, f.obs.passed)
            && (e.obs.failed, e.obs.coverage, e.obs.candidate, e.obs.environment, e.obs.status) ==
               (f.obs.failed, f.obs.coverage, f.obs.candidate, f.obs.environment, f.obs.status)
  {
    var (a, b) := (e.spec.Digest(), f.spec.Digest());
    var (x, y) := (e.obs.Digest(), f.obs.Digest());
  }

  // ---- What a collection of evidence says ----

  ghost predicate AnyOf(evs: set<Evidence>, p: Evidence -> bool) {
    exists e :: e in evs && p(e)
  }

  function Saying(claim: Claim, ctx: Context, says: Bearing -> bool): Evidence -> bool {
    (e: Evidence) => says(Weigh(claim, e, ctx))
  }

  ghost predicate Anything(claim: Claim, evs: set<Evidence>, ctx: Context, says: Bearing -> bool) {
    exists e :: e in evs && says(Weigh(claim, e, ctx))
  }

  lemma {:induction false} AnythingIsAny(claim: Claim, evs: set<Evidence>, ctx: Context, says: Bearing -> bool)
    ensures Anything(claim, evs, ctx, says) <==> AnyOf(evs, Saying(claim, ctx, says))
  {
    if e :| e in evs && says(Weigh(claim, e, ctx)) { assert Saying(claim, ctx, says)(e); }
    if e :| e in evs && Saying(claim, ctx, says)(e) { assert says(Weigh(claim, e, ctx)); }
  }

  /** The reference verdict: it sees a set, so neither order nor repetition. */
  ghost function Verdict(claim: Claim, evs: set<Evidence>, ctx: Context): Epistemic {
    if Anything(claim, evs, ctx, Spoils) then Unsupported
    else if Anything(claim, evs, ctx, Refutes) then Contradicted
    else if Anything(claim, evs, ctx, Backs) then Supported
    else Unsupported
  }

  function Elems(evs: seq<Evidence>): set<Evidence> {
    set e | e in evs
  }

  /** No earlier item has the same digests. */
  predicate Fresh(evs: seq<Evidence>, i: nat)
    requires i < |evs|
  {
    forall j :: 0 <= j < i ==> evs[j].Key() != evs[i].Key()
  }

  /** The items the evaluator looks at: the first of each digest pair. */
  ghost function Firsts(evs: seq<Evidence>): set<Evidence> {
    set i | 0 <= i < |evs| && Fresh(evs, i) :: evs[i]
  }

  ghost predicate Coherent(evs: seq<Evidence>) {
    forall a, b :: a in evs && b in evs && a.Key() == b.Key() ==> Agree(a, b)
  }

  lemma {:induction false} HasFirst(evs: seq<Evidence>, i: nat) returns (j: nat)
    requires i < |evs|
    ensures j <= i && Fresh(evs, j) && evs[j].Key() == evs[i].Key()
    decreases i
  {
    if Fresh(evs, i) { return i; }
    var k :| 0 <= k < i && evs[k].Key() == evs[i].Key();
    j := HasFirst(evs, k);
  }

  lemma {:induction false} CoherentFirstsSpeakForAll(
      claim: Claim, evs: seq<Evidence>, ctx: Context, says: Bearing -> bool)
    requires Coherent(evs)
    ensures Anything(claim, Firsts(evs), ctx, says) <==> Anything(claim, Elems(evs), ctx, says)
  {
    if Anything(claim, Elems(evs), ctx, says) {
      var e :| e in Elems(evs) && says(Weigh(claim, e, ctx));
      var i :| 0 <= i < |evs| && evs[i] == e;
      var j := HasFirst(evs, i);
      BearingFollowsDigests(claim, ctx, evs[j], e);
      assert evs[j] in Firsts(evs);
    }
  }

  /** With coherent digests the evaluator's deduplicated verdict is the verdict on everything it was given. */
  lemma {:induction false} DeduplicationIsHarmless(claim: Claim, evs: seq<Evidence>, ctx: Context)
    requires Coherent(evs)
    ensures Verdict(claim, Firsts(evs), ctx) == Verdict(claim, Elems(evs), ctx)
  {
    CoherentFirstsSpeakForAll(claim, evs, ctx, Spoils);
    CoherentFirstsSpeakForAll(claim, evs, ctx, Refutes);
    CoherentFirstsSpeakForAll(claim, evs, ctx, Backs);
  }

  /** Reordering or repeating coherent evidence changes no verdict. */
  lemma {:induction false} OrderAndRepetitionAreIgnored(claim: Claim, a: seq<Evidence>, b: seq<Evidence>, ctx: Context)
    requires Coherent(a) && Elems(a) == Elems(b)
    ensures Verdict(claim, Firsts(a), ctx) == Verdict(claim, Firsts(b), ctx)
  {
    forall x, y | x in b && y in b && x.Key() == y.Key() ensures Agree(x, y) {
      assert x in Elems(b) && y in Elems(b);
      assert x in a && y in a;
    }
    DeduplicationIsHarmless(claim, a, ctx);
    DeduplicationIsHarmless(claim, b, ctx);
  }

  // ---- When order matters ----

  /** Every item with e's digests passes. */
  ghost predicate ClassPasses(evs: seq<Evidence>, e: Evidence, p: Evidence -> bool) {
    forall f :: f in evs && f.Key() == e.Key() ==> p(f)
  }

  ghost predicate Unmixed(evs: seq<Evidence>, p: Evidence -> bool) {
    forall e, f :: e in evs && f in evs && e.Key() == f.Key() ==> p(e) == p(f)
  }

  /** Some digest class passes throughout, or every class passes throughout or not at all. */
  ghost predicate FixedFor(evs: seq<Evidence>, p: Evidence -> bool) {
    (exists e :: e in evs && ClassPasses(evs, e, p)) || Unmixed(evs, p)
  }

  ghost predicate Rearranges(other: seq<Evidence>, evs: seq<Evidence>) {
    forall e :: e in other <==> e in evs
  }

  lemma {:induction false} FirstOf(evs: seq<Evidence>, e: Evidence) returns (f: Evidence)
    requires e in evs
    ensures f in evs && f in Firsts(evs) && f.Key() == e.Key()
  {
    var i :| 0 <= i < |evs| && evs[i] == e;
    var j := HasFirst(evs, i);
    f := evs[j];
  }

  /** Where no digest class is mixed, the first items say all there is. */
  lemma {:induction false} UnmixedSpeaksForAll(evs: seq<Evidence>, p: Evidence -> bool)
    requires Unmixed(evs, p)
    ensures AnyOf(Firsts(evs), p) <==> AnyOf(Elems(evs), p)
  {
    if AnyOf(Elems(evs), p) {
      var e :| e in Elems(evs) && p(e);
      var f := FirstOf(evs, e);
    }
  }

  /** A fixed answer is the same for every arrangement and repetition. */
  lemma {:induction false} FixedIsStable(evs: seq<Evidence>, other: seq<Evidence>, p: Evidence -> bool)
    requires FixedFor(evs, p) && Rearranges(other, evs)
    ensures AnyOf(Firsts(other), p) <==> AnyOf(Firsts(evs), p)
  {
    if e :| e in evs && ClassPasses(evs, e, p) {
      var f := FirstOf(evs, e);
      var g := FirstOf(other, e);
    } else {
      UnmixedSpeaksForAll(evs, p);
      UnmixedSpeaksForAll(other, p);
      assert Elems(evs) == Elems(other);
    }
  }

  /** The items that pass, or those that do not. */
  function Those(evs: seq<Evidence>, p: Evidence -> bool, yes: bool): (r: seq<Evidence>)
    ensures forall e :: e in r <==> e in evs && p(e) == yes
  {
    if evs == [] then []
    else
      var n := |evs| - 1;
      assert evs == evs[..n] + [evs[n]];
      Those(evs[..n], p, yes) + if p(evs[n]) == yes then [evs[n]] else []
  }

  lemma {:induction false} FrontIsFirst(evs: seq<Evidence>)
    requires evs != []
    ensures evs[0] in Firsts(evs)
  {
    assert Fresh(evs, 0);
  }

  lemma {:induction false} LateIsNotFresh(early: seq<Evidence>, late: seq<Evidence>, f: Evidence, i: nat)
    requires f in early && |early| <= i < |early + late| && f.Key() == (early + late)[i].Key()
    ensures !Fresh(early + late, i)
  {
    var j :| 0 <= j < |early| && early[j] == f;
    assert (early + late)[j] == f;
  }

  /** Every late item has the digests of an early one. */
  ghost predicate Shadowed(late: seq<Evidence>, early: seq<Evidence>) {
    forall e :: e in late ==> exists f :: f in early && f.Key() == e.Key()
  }

  /** Shadowed items never come first. */
  lemma {:induction false} FirstsComeEarly(early: seq<Evidence>, late: seq<Evidence>)
    requires Shadowed(late, early)
    ensures forall e :: e in Firsts(early + late) ==> e in early
  {
    var all := early + late;
    forall i | 0 <= i < |all| ensures Fresh(all, i) ==> all[i] in early {
      if |early| <= i {
        assert all[i] == late[i - |early|] && all[i] in late;
        var f :| f in early && f.Key() == all[i].Key();
        LateIsNotFresh(early, late, f, i);
      }
    }
  }

  /** Every item that passes shares its digests with one that does not. */
  lemma {:induction false} PassersAreShadowed(evs: seq<Evidence>, p: Evidence -> bool)
    requires forall e :: e in evs ==> !ClassPasses(evs, e, p)
    ensures Shadowed(Those(evs, p, true), Those(evs, p, false))
  {
    var yes, no := Those(evs, p, true), Those(evs, p, false);
    forall e | e in yes ensures exists f :: f in no && f.Key() == e.Key() {
      assert !ClassPasses(evs, e, p);
    }
  }

  lemma {:induction false} SomethingPasses(evs: seq<Evidence>, p: Evidence -> bool, e: Evidence, f: Evidence)
    requires e in evs && f in evs && p(e) != p(f)
    ensures Those(evs, p, true) != []
  {
    assert e in Those(evs, p, true) || f in Those(evs, p, true);
  }

  lemma {:induction false} MixedPasses(evs: seq<Evidence>, p: Evidence -> bool)
    requires !Unmixed(evs, p)
    ensures Those(evs, p, true) != []
  {
    var e, f :| e in evs && f in evs && e.Key() == f.Key() && p(e) != p(f);
    SomethingPasses(evs, p, e, f);
  }

  lemma {:induction false} BothPartsRearrange(evs: seq<Evidence>, p: Evidence -> bool, yes: bool)
    ensures Rearranges(Those(evs, p, yes) + Those(evs, p, !yes), evs)
  {
    forall e ensures e in Those(evs, p, yes) + Those(evs, p, !yes) <==> e in evs {
      assert e in evs ==> p(e) == yes || p(e) == !yes;
    }
  }

  lemma {:induction false} PassingInFront(yes: seq<Evidence>, no: seq<Evidence>, p: Evidence -> bool)
    requires yes != [] && forall e :: e in yes ==> p(e)
    ensures AnyOf(Firsts(yes + no), p)
  {
    FrontIsFirst(yes + no);
    assert (yes + no)[0] == yes[0] && yes[0] in yes;
  }

  lemma {:induction false} FailingInFront(no: seq<Evidence>, yes: seq<Evidence>, p: Evidence -> bool)
    requires Shadowed(yes, no) && forall e :: e in no ==> !p(e)
    ensures !AnyOf(Firsts(no + yes), p)
  {
    FirstsComeEarly(no, yes);
  }

  /** With what passes in front the answer is yes, and with it at the end no. */
  lemma {:induction false} FrontAndBack(evs: seq<Evidence>, p: Evidence -> bool)
    requires !FixedFor(evs, p)
    ensures AnyOf(Firsts(Those(evs, p, true) + Those(evs, p, false)), p)
    ensures !AnyOf(Firsts(Those(evs, p, false) + Those(evs, p, true)), p)
  {
    MixedPasses(evs, p);
    PassingInFront(Those(evs, p, true), Those(evs, p, false), p);
    PassersAreShadowed(evs, p);
    FailingInFront(Those(evs, p, false), Those(evs, p, true), p);
  }

  /** Two arrangements of evidence whose answer is not fixed. */
  lemma {:induction false} UnfixedArrangements(
      evs: seq<Evidence>, p: Evidence -> bool) returns (a: seq<Evidence>, b: seq<Evidence>)
    requires !FixedFor(evs, p)
    ensures Rearranges(a, evs) && Rearranges(b, evs)
    ensures AnyOf(Firsts(a), p) && !AnyOf(Firsts(b), p)
  {
    a, b := Those(evs, p, true) + Those(evs, p, false), Those(evs, p, false) + Those(evs, p, true);
    BothPartsRearrange(evs, p, true);
    BothPartsRearrange(evs, p, false);
    FrontAndBack(evs, p);
  }

  /** Whether any first item passes does not depend on order and repetition exactly when it is fixed. */
  lemma {:induction false} StableExactly(evs: seq<Evidence>, p: Evidence -> bool)
    ensures (forall other :: Rearranges(other, evs) ==> (AnyOf(Firsts(other), p) <==> AnyOf(Firsts(evs), p))) <==>
            FixedFor(evs, p)
  {
    if FixedFor(evs, p) {
      forall other | Rearranges(other, evs) ensures AnyOf(Firsts(other), p) <==> AnyOf(Firsts(evs), p) {
        FixedIsStable(evs, other, p);
      }
    } else {
      var a, b := UnfixedArrangements(evs, p);
    }
  }

  /** Some digest class says so throughout, or every class says so throughout or not at all. */
  ghost predicate Fixed(claim: Claim, evs: seq<Evidence>, ctx: Context, says: Bearing -> bool) {
    FixedFor(evs, Saying(claim, ctx, says))
  }

  /** Defects are a matter of the digests alone. */
  lemma {:induction false} DefectsAreFixed(claim: Claim, evs: seq<Evidence>, ctx: Context)
    ensures Fixed(claim, evs, ctx, Spoils)
  {
    var p := Saying(claim, ctx, Spoils);
    forall e, f | e in evs && f in evs && e.Key() == f.Key() ensures p(e) == p(f) {
      SameDefect(claim, ctx, e, f);
      SameDefect(claim, ctx, f, e);
      assert p(e) == Spoils(Weigh(claim, e, ctx)) && p(f) == Spoils(Weigh(claim, f, ctx));
    }
  }

  lemma {:induction false} SameDefect(claim: Claim, ctx: Context, e: Evidence, f: Evidence)
    requires e.Key() == f.Key()
    ensures Weigh(claim, e, ctx).Unusable? ==> Weigh(claim, f, ctx) == Weigh(claim, e, ctx)
    ensures !Refutes(Weigh(claim, e, ctx)) && !Refutes(Weigh(claim, f, ctx)) ==>
              Weigh(claim, f, ctx) == Weigh(claim, e, ctx)
  {
    assert e.spec.Digest() == f.spec.Digest() && e.obs.Digest() == f.obs.Digest();
  }

  /** The verdict is the same for every arrangement and repetition of the evidence. */
  ghost predicate VerdictIgnoresOrder(claim: Claim, evs: seq<Evidence>, ctx: Context) {
    forall other :: Rearranges(other, evs) ==> Verdict(claim, Firsts(other), ctx) == Verdict(claim, Firsts(evs), ctx)
  }

  /**
   The verdict ignores order exactly when some item is unusable, or some digest class contradicts throughout,
   or no digest class contains both a contradicting item and another.
   */
  lemma {:induction false} VerdictIgnoresOrderExactly(claim: Claim, evs: seq<Evidence>, ctx: Context)
    ensures VerdictIgnoresOrder(claim, evs, ctx) <==>
            (exists e :: e in evs && Weigh(claim, e, ctx).Unusable?) || Fixed(claim, evs, ctx, Refutes)
  {
    if e :| e in evs && Weigh(claim, e, ctx).Unusable? {
      forall other | Rearranges(other, evs) ensures Verdict(claim, Firsts(other), ctx) == Unsupported {
        var f := FirstOf(other, e);
        SameDefect(claim, ctx, e, f);
      }
      var f := FirstOf(evs, e);
      SameDefect(claim, ctx, e, f);
    } else if Fixed(claim, evs, ctx, Refutes) {
      forall other | Rearranges(other, evs)
        ensures Verdict(claim, Firsts(other), ctx) == Verdict(claim, Firsts(evs), ctx)
      {
        FixedVerdict(claim, evs, other, ctx);
      }
    } else {
      var a, b := UnfixedArrangements(evs, Saying(claim, ctx, Refutes));
      AnythingIsAny(claim, Firsts(a), ctx, Refutes);
      AnythingIsAny(claim, Firsts(b), ctx, Refutes);
      UsableVerdict(claim, a, ctx);
      UsableVerdict(claim, b, ctx);
    }
  }

  lemma {:induction false} UsableVerdict(claim: Claim, evs: seq<Evidence>, ctx: Context)
    requires forall e :: e in evs ==> !Weigh(claim, e, ctx).Unusable?
    ensures Verdict(claim, Firsts(evs), ctx) == Contradicted <==> Anything(claim, Firsts(evs), ctx, Refutes)
  {
  }

  lemma {:induction false} FixedStays(
      claim: Claim, evs: seq<Evidence>, other: seq<Evidence>, ctx: Context, says: Bearing -> bool)
    requires Fixed(claim, evs, ctx, says) && Rearranges(other, evs)
    ensures Anything(claim, Firsts(other), ctx, says) <==> Anything(claim, Firsts(evs), ctx, says)
  {
    FixedIsStable(evs, other, Saying(claim, ctx, says));
    AnythingIsAny(claim, Firsts(evs), ctx, says);
    AnythingIsAny(claim, Firsts(other), ctx, says);
  }

  lemma {:induction false} FixedVerdict(claim: Claim, evs: seq<Evidence>, other: seq<Evidence>, ctx: Context)
    requires Fixed(claim, evs, ctx, Refutes) && Rearranges(other, evs)
    ensures Verdict(claim, Firsts(other), ctx) == Verdict(claim, Firsts(evs), ctx)
  {
    DefectsAreFixed(claim, evs, ctx);
    FixedStays(claim, evs, other, ctx, Spoils);
    FixedStays(claim, evs, other, ctx, Refutes);
    if !Anything(claim, Firsts(evs), ctx, Refutes) {
      SupportStays(claim, evs, other, ctx);
      SupportStays(claim, other, evs, ctx);
    }
  }

  /** Where no first item contradicts, support is a matter of the digests. */
  lemma {:induction false} SupportStays(claim: Claim, evs: seq<Evidence>, other: seq<Evidence>, ctx: Context)
    requires Rearranges(other, evs)
    requires !Anything(claim, Firsts(evs), ctx, Refutes) && !Anything(claim, Firsts(other), ctx, Refutes)
    ensures Anything(claim, Firsts(evs), ctx, Backs) ==> Anything(claim, Firsts(other), ctx, Backs)
  {
    if Anything(claim, Firsts(evs), ctx, Backs) {
      var e :| e in Firsts(evs) && Backs(Weigh(claim, e, ctx));
      var f := FirstOf(other, e);
      SameDefect(claim, ctx, e, f);
    }
  }

  // ---- Applicability ----

  /** The first unusable item names the applicability; without one, whether anything was said. */
  ghost function AppliesOver(claim: Claim, evs: seq<Evidence>, ctx: Context): Applicability {
    if exists i: nat :: i < |evs| && StopsAt(claim, evs, ctx, i)
    then
      var i: nat :| i < |evs| && StopsAt(claim, evs, ctx, i);
      Weigh(claim, evs[i], ctx).why
    else if Anything(claim, Firsts(evs), ctx, Speaks) then Applicable
    else Unresolved
  }

  /** All defects have the same reason. */
  ghost predicate OneReason(claim: Claim, evs: seq<Evidence>, ctx: Context) {
    forall e, f :: e in evs && f in evs && Weigh(claim, e, ctx).Unusable? && Weigh(claim, f, ctx).Unusable? ==>
      Weigh(claim, e, ctx) == Weigh(claim, f, ctx)
  }

  lemma {:induction false} OneStop(claim: Claim, evs: seq<Evidence>, ctx: Context, i: nat, j: nat)
    requires i < |evs| && j < |evs| && StopsAt(claim, evs, ctx, i) && StopsAt(claim, evs, ctx, j)
    ensures i == j
  {
    assert Fresh(evs, i) && Fresh(evs, j);
  }

  lemma {:induction false} StopExists(claim: Claim, evs: seq<Evidence>, ctx: Context, n: nat)
    requires n <= |evs|
    ensures (exists i: nat :: i < n && StopsAt(claim, evs, ctx, i)) <==> !UsableBefore(claim, evs, ctx, n)
  {
    if n > 0 {
      StopExists(claim, evs, ctx, n - 1);
      if UsableBefore(claim, evs, ctx, n - 1) && !UsableBefore(claim, evs, ctx, n) {
        assert StopsAt(claim, evs, ctx, n - 1);
      }
      if i: nat :| i < n && StopsAt(claim, evs, ctx, i) { assert Fresh(evs, i); }
    }
  }

  /** An unusable item anywhere stops the evaluation somewhere. */
  lemma {:induction false} DefectStops(claim: Claim, evs: seq<Evidence>, ctx: Context)
    ensures (exists i: nat :: i < |evs| && StopsAt(claim, evs, ctx, i)) <==>
            (exists e :: e in evs && Weigh(claim, e, ctx).Unusable?)
  {
    StopExists(claim, evs, ctx, |evs|);
    if e :| e in evs && Weigh(claim, e, ctx).Unusable? {
      var k :| 0 <= k < |evs| && evs[k] == e;
      var j := HasFirst(evs, k);
      SameDefect(claim, ctx, e, evs[j]);
    }
    if i: nat :| i < |evs| && StopsAt(claim, evs, ctx, i) { assert evs[i] in evs; }
  }

  /** Put first, an unusable item names the applicability. */
  lemma {:induction false} DefectInFront(claim: Claim, e: Evidence, evs: seq<Evidence>, ctx: Context)
    requires e in evs && Weigh(claim, e, ctx).Unusable?
    ensures Rearranges([e] + evs, evs) && AppliesOver(claim, [e] + evs, ctx) == Weigh(claim, e, ctx).why
  {
    var other := [e] + evs;
    assert other[0] == e && Fresh(other, 0) && StopsAt(claim, other, ctx, 0);
    var i: nat :| i < |other| && StopsAt(claim, other, ctx, i);
    forall i: nat | i < |other| && StopsAt(claim, other, ctx, i) ensures i == 0 { OneStop(claim, other, ctx, i, 0); }
  }

  ghost predicate ApplicabilityIgnoresOrder(claim: Claim, evs: seq<Evidence>, ctx: Context) {
    forall other :: Rearranges(other, evs) ==> AppliesOver(claim, other, ctx) == AppliesOver(claim, evs, ctx)
  }

  lemma {:induction false} OneReasonApplies(
      claim: Claim, evs: seq<Evidence>, other: seq<Evidence>, ctx: Context, e: Evidence)
    requires Rearranges(other, evs) && OneReason(claim, evs, ctx) && e in evs && Weigh(claim, e, ctx).Unusable?
    ensures AppliesOver(claim, other, ctx) == Weigh(claim, e, ctx).why
  {
    DefectStops(claim, other, ctx);
    forall i: nat | i < |other| && StopsAt(claim, other, ctx, i)
      ensures Weigh(claim, other[i], ctx) == Weigh(claim, e, ctx)
    {
      assert other[i] in evs;
    }
  }

  lemma {:induction false} DefectiveApplicability(claim: Claim, evs: seq<Evidence>, ctx: Context, e: Evidence)
    requires e in evs && Weigh(claim, e, ctx).Unusable?
    ensures ApplicabilityIgnoresOrder(claim, evs, ctx) <==> OneReason(claim, evs, ctx)
  {
    if OneReason(claim, evs, ctx) {
      OneReasonApplies(claim, evs, evs, ctx, e);
      forall other | Rearranges(other, evs) ensures AppliesOver(claim, other, ctx) == AppliesOver(claim, evs, ctx) {
        OneReasonApplies(claim, evs, other, ctx, e);
      }
    }
    if ApplicabilityIgnoresOrder(claim, evs, ctx) {
      forall f | f in evs && Weigh(claim, f, ctx).Unusable?
        ensures Weigh(claim, f, ctx).why == AppliesOver(claim, evs, ctx)
      {
        DefectInFront(claim, f, evs, ctx);
      }
    }
  }

  lemma {:induction false} UsableApplicability(claim: Claim, evs: seq<Evidence>, ctx: Context)
    requires forall e :: e in evs ==> !Weigh(claim, e, ctx).Unusable?
    ensures AppliesOver(claim, evs, ctx) == if Anything(claim, Firsts(evs), ctx, Speaks) then Applicable else Unresolved
  {
    DefectStops(claim, evs, ctx);
  }

  lemma {:induction false} UsableOrder(claim: Claim, evs: seq<Evidence>, ctx: Context)
    requires forall e :: e in evs ==> !Weigh(claim, e, ctx).Unusable?
    ensures ApplicabilityIgnoresOrder(claim, evs, ctx) <==> Fixed(claim, evs, ctx, Speaks)
  {
    var p := Saying(claim, ctx, Speaks);
    UsableApplicability(claim, evs, ctx);
    AnythingIsAny(claim, Firsts(evs), ctx, Speaks);
    forall other | Rearranges(other, evs)
      ensures AppliesOver(claim, other, ctx) == if AnyOf(Firsts(other), p) then Applicable else Unresolved
    {
      UsableApplicability(claim, other, ctx);
      AnythingIsAny(claim, Firsts(other), ctx, Speaks);
    }
    StableExactly(evs, p);
  }

  /**
   Applicability ignores order exactly when all defects have one reason, or, without defects, when it is fixed
   whether anything is said.
   */
  lemma {:induction false} ApplicabilityIgnoresOrderExactly(claim: Claim, evs: seq<Evidence>, ctx: Context)
    ensures ApplicabilityIgnoresOrder(claim, evs, ctx) <==>
            if exists e :: e in evs && Weigh(claim, e, ctx).Unusable? then OneReason(claim, evs, ctx)
            else Fixed(claim, evs, ctx, Speaks)
  {
    if e :| e in evs && Weigh(claim, e, ctx).Unusable? {
      DefectiveApplicability(claim, evs, ctx, e);
    } else {
      UsableOrder(claim, evs, ctx);
    }
  }

  // ---- The evaluation, field by field ----

  /** Item i is looked at and is the first that cannot be used. */
  ghost predicate FirstDefect(claim: Claim, evs: seq<Evidence>, ctx: Context, i: nat) {
    && i < |evs| && Fresh(evs, i) && !Usable(claim, evs[i], ctx)
    && forall j {:trigger Fresh(evs, j)} :: 0 <= j < i && Fresh(evs, j) ==> Usable(claim, evs[j], ctx)
  }

  /** Everything looked at can be used. */
  ghost predicate AllUsable(claim: Claim, evs: seq<Evidence>, ctx: Context) {
    forall e :: e in Firsts(evs) ==> Usable(claim, e, ctx)
  }

  ghost predicate SomeAdverse(evs: set<Evidence>) {
    exists e :: e in evs && Adverse(e)
  }

  ghost predicate SomePassing(evs: set<Evidence>) {
    exists e :: e in evs && Passing(e)
  }

  /** The answer to a claim, from the fields of the items looked at. */
  ghost predicate Answers(claim: Claim, evs: seq<Evidence>, ctx: Context, status: Epistemic, applies: Applicability) {
    var usable := AllUsable(claim, evs, ctx);
    && (status == Supported <==> usable && !SomeAdverse(Firsts(evs)) && SomePassing(Firsts(evs)))
    && (status == Contradicted <==> usable && SomeAdverse(Firsts(evs)))
    && (applies == Applicable <==> usable && (SomeAdverse(Firsts(evs)) || SomePassing(Firsts(evs))))
    && (applies == Inapplicable <==>
          exists i: nat :: FirstDefect(claim, evs, ctx, i) && !BoundTo(claim, evs[i], ctx))
    && (usable <==> forall i: nat :: !FirstDefect(claim, evs, ctx, i))
  }

  lemma {:induction false} DefectInFields(claim: Claim, evs: seq<Evidence>, ctx: Context, i: nat)
    ensures FirstDefect(claim, evs, ctx, i) <==> i < |evs| && StopsAt(claim, evs, ctx, i)
    ensures FirstDefect(claim, evs, ctx, i) ==>
              Weigh(claim, evs[i], ctx) ==
              Unusable(if BoundTo(claim, evs[i], ctx) then Unresolved else Inapplicable)
  {
    forall e { BearingInFields(claim, e, ctx); }
  }

  lemma {:induction false} VerdictInFields(claim: Claim, evs: seq<Evidence>, ctx: Context)
    ensures var status := Verdict(claim, Firsts(evs), ctx);
            && (status == Supported <==>
                  AllUsable(claim, evs, ctx) && !SomeAdverse(Firsts(evs)) && SomePassing(Firsts(evs)))
            && (status == Contradicted <==> AllUsable(claim, evs, ctx) && SomeAdverse(Firsts(evs)))
    ensures AllUsable(claim, evs, ctx) ==>
              (Anything(claim, Firsts(evs), ctx, Speaks) <==> SomeAdverse(Firsts(evs)) || SomePassing(Firsts(evs)))
    ensures AllUsable(claim, evs, ctx) <==> !Anything(claim, Firsts(evs), ctx, Spoils)
  {
    forall e { BearingInFields(claim, e, ctx); }
  }

  /** What the evaluator says is what the fields say. */
  lemma {:induction false} EvaluationInFields(claim: Claim, evs: seq<Evidence>, ctx: Context)
    ensures Answers(claim, evs, ctx, Verdict(claim, Firsts(evs), ctx), AppliesOver(claim, evs, ctx))
  {
    VerdictInFields(claim, evs, ctx);
    forall i: nat { DefectInFields(claim, evs, ctx, i); }
    StopExists(claim, evs, ctx, |evs|);
    OccursAmongFirsts(claim, evs, ctx, Spoils);
    if i: nat :| FirstDefect(claim, evs, ctx, i) { DefectEnds(claim, evs, ctx, i); }
    forall i: nat, j: nat | FirstDefect(claim, evs, ctx, i) && FirstDefect(claim, evs, ctx, j) ensures i == j {
      OneStop(claim, evs, ctx, i, j);
    }
  }

  // ---- The evaluator ----

  ghost predicate Occurs(claim: Claim, evs: seq<Evidence>, ctx: Context, n: nat, says: Bearing -> bool)
    requires n <= |evs|
  {
    exists i {:trigger Fresh(evs, i)} :: 0 <= i < n && Fresh(evs, i) && says(Weigh(claim, evs[i], ctx))
  }

  /** Evidence before item i has been looked at and found usable. */
  ghost predicate UsableBefore(claim: Claim, evs: seq<Evidence>, ctx: Context, i: nat)
    requires i <= |evs|
  {
    forall j {:trigger Fresh(evs, j)} :: 0 <= j < i && Fresh(evs, j) ==> !Weigh(claim, evs[j], ctx).Unusable?
  }

  /** The index of the item whose defect ends the evaluation. */
  ghost predicate StopsAt(claim: Claim, evs: seq<Evidence>, ctx: Context, i: nat)
    requires i < |evs|
  {
    UsableBefore(claim, evs, ctx, i) && Fresh(evs, i) && Weigh(claim, evs[i], ctx).Unusable?
  }

  method EvaluateClaim(
      claim: Claim, evs: seq<Evidence>, ctx: Context) returns (status: Epistemic, applies: Applicability)
    ensures status == Verdict(claim, Firsts(evs), ctx)
    ensures applies == AppliesOver(claim, evs, ctx)
    ensures Answers(claim, evs, ctx, status, applies)
  {
    var supports, contradictions: seq<Evidence> := [], [];
    var seen: set<(SpecDigest, ObservationDigest)> := {};
    for i := 0 to |evs|
      invariant forall k :: k in seen <==> exists j :: 0 <= j < i && evs[j].Key() == k
      invariant UsableBefore(claim, evs, ctx, i)
      invariant contradictions != [] <==> Occurs(claim, evs, ctx, i, Refutes)
      invariant supports != [] <==> Occurs(claim, evs, ctx, i, Backs)
    {
      var e := evs[i];
      if e.Key() in seen {
        assert !Fresh(evs, i);
        seen := seen + {e.Key()};
        continue;
      }
      assert Fresh(evs, i);
      seen := seen + {e.Key()};
      match Weigh(claim, e, ctx)
      case Unusable(why) =>
        DefectEnds(claim, evs, ctx, i);
        EvaluationInFields(claim, evs, ctx);
        return Unsupported, why;
      case Contradicts => contradictions := contradictions + [e];
      case Supports => supports := supports + [e];
      case Silent =>
    }
    NoDefect(claim, evs, ctx);
    EvaluationInFields(claim, evs, ctx);
    if contradictions != [] { return Contradicted, Applicable; }
    if supports != [] { return Supported, Applicable; }
    return Unsupported, Unresolved;
  }

  lemma {:induction false} DefectEnds(claim: Claim, evs: seq<Evidence>, ctx: Context, i: nat)
    requires i < |evs| && StopsAt(claim, evs, ctx, i)
    ensures Verdict(claim, Firsts(evs), ctx) == Unsupported
    ensures AppliesOver(claim, evs, ctx) == Weigh(claim, evs[i], ctx).why
  {
    FreshIsFirst(evs, i);
    assert Anything(claim, Firsts(evs), ctx, Spoils);
    forall j: nat | j < |evs| && StopsAt(claim, evs, ctx, j) ensures j == i { OneStop(claim, evs, ctx, j, i); }
  }

  lemma {:induction false} NoDefect(claim: Claim, evs: seq<Evidence>, ctx: Context)
    requires UsableBefore(claim, evs, ctx, |evs|)
    ensures Verdict(claim, Firsts(evs), ctx) ==
            if Occurs(claim, evs, ctx, |evs|, Refutes) then Contradicted
            else if Occurs(claim, evs, ctx, |evs|, Backs) then Supported
            else Unsupported
    ensures AppliesOver(claim, evs, ctx) ==
            if Occurs(claim, evs, ctx, |evs|, Refutes) || Occurs(claim, evs, ctx, |evs|, Backs) then Applicable
            else Unresolved
  {
    VerdictByOccurrence(claim, evs, ctx);
    StopExists(claim, evs, ctx, |evs|);
    SpeakingOccurs(claim, evs, ctx);
    OccursAmongFirsts(claim, evs, ctx, Speaks);
  }

  lemma {:induction false} SpeakingOccurs(claim: Claim, evs: seq<Evidence>, ctx: Context)
    ensures Occurs(claim, evs, ctx, |evs|, Speaks) <==>
            Occurs(claim, evs, ctx, |evs|, Refutes) || Occurs(claim, evs, ctx, |evs|, Backs)
  {
  }

  lemma {:induction false} FreshIsFirst(evs: seq<Evidence>, i: nat)
    requires i < |evs| && Fresh(evs, i)
    ensures evs[i] in Firsts(evs)
  {
  }

  lemma {:induction false} VerdictByOccurrence(claim: Claim, evs: seq<Evidence>, ctx: Context)
    requires UsableBefore(claim, evs, ctx, |evs|)
    ensures Verdict(claim, Firsts(evs), ctx) ==
            if Occurs(claim, evs, ctx, |evs|, Refutes) then Contradicted
            else if Occurs(claim, evs, ctx, |evs|, Backs) then Supported
            else Unsupported
  {
    OccursAmongFirsts(claim, evs, ctx, Spoils);
    OccursAmongFirsts(claim, evs, ctx, Refutes);
    OccursAmongFirsts(claim, evs, ctx, Backs);
  }

  lemma {:induction false} OccursAmongFirsts(claim: Claim, evs: seq<Evidence>, ctx: Context, says: Bearing -> bool)
    ensures Occurs(claim, evs, ctx, |evs|, says) <==> Anything(claim, Firsts(evs), ctx, says)
  {
    if Occurs(claim, evs, ctx, |evs|, says) {
      var i :| 0 <= i < |evs| && Fresh(evs, i) && says(Weigh(claim, evs[i], ctx));
      assert evs[i] in Firsts(evs);
    }
  }
}
