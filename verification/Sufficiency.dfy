/** Law 6 sufficiency: when an objective counts as accomplished, given claims, evidence and live retractions. */
module Sufficiency {
  import opened Common
  import opened Substrate
  import opened Evidence

  datatype NodeStatus =
    | ProposedNode | InferredNode | ObservedNode | VerifiedNode | QualifiedNode
    | AuthoritativeNode | ContestedNode | SupersededNode | InvalidatedNode

  /** The relational store's statuses; having no store is having an empty one. */
  type Nodes = map<string, NodeStatus>

  predicate Retracted(nodes: Nodes, id: string) {
    id in nodes && (nodes[id].InvalidatedNode? || nodes[id].ContestedNode? || nodes[id].ProposedNode?)
  }

  datatype Rule = Conjunction | Alternatives(ids: set<string>) | Conditional | OptionalPreference

  /** `qualification` names the qualification status; `blank` tells whether the intent is all whitespace. */
  datatype Objective = Objective(qualification: string, blank: bool, reqs: seq<Requirement>)

  datatype Dossier = Dossier(claims: map<string, Claim>, evidence: map<string, seq<Evidence>>, ctx: Context,
      nodes: Nodes)

  function EvidenceFor(d: Dossier, claim: Claim): seq<Evidence> {
    if claim.id in d.evidence then d.evidence[claim.id] else []
  }

  function Surviving(evs: seq<Evidence>, nodes: Nodes): seq<Evidence> {
    if evs == [] then []
    else
      var n := |evs| - 1;
      Surviving(evs[..n], nodes) + if Retracted(nodes, evs[n].id) then [] else [evs[n]]
  }

  lemma {:induction false} SurvivingExactly(evs: seq<Evidence>, nodes: Nodes, e: Evidence)
    ensures e in Surviving(evs, nodes) <==> e in evs && !Retracted(nodes, e.id)
  {
    if evs != [] {
      var n := |evs| - 1;
      assert evs == evs[..n] + [evs[n]];
      SurvivingExactly(evs[..n], nodes, e);
    }
  }

  datatype Standing = Unclaimed | Withdrawn | Judged(status: Epistemic)

  /** Where one requirement stands; it depends on the requirement's id alone. */
  ghost function StandingOf(d: Dossier, id: string): Standing {
    if id !in d.claims then Unclaimed
    else if Retracted(d.nodes, id) then Withdrawn
    else
      var claim := d.claims[id];
      Judged(Verdict(claim, Firsts(Surviving(EvidenceFor(d, claim), d.nodes)), d.ctx))
  }

  /** The store lists the id as invalidated, contested or merely proposed. */
  predicate ListedAsUnreliable(nodes: Nodes, id: string) {
    id in nodes && nodes[id] in {InvalidatedNode, ContestedNode, ProposedNode}
  }

  /**
   A requirement is held exactly when it has a claim, is not listed as unreliable, and of its evidence that is not so
   listed every item looked at is usable and not adverse and some one passed.
   */
  lemma {:induction false} HeldInFields(d: Dossier, id: string)
    ensures StandingOf(d, id) == Judged(Supported) <==>
            && id in d.claims && !ListedAsUnreliable(d.nodes, id)
            && var (claim, live) := (d.claims[id], Surviving(EvidenceFor(d, d.claims[id]), d.nodes));
               && AllUsable(claim, live, d.ctx) && !SomeAdverse(Firsts(live)) && SomePassing(Firsts(live))
    ensures StandingOf(d, id) == Judged(Contradicted) <==>
            && id in d.claims && !ListedAsUnreliable(d.nodes, id)
            && var (claim, live) := (d.claims[id], Surviving(EvidenceFor(d, d.claims[id]), d.nodes));
               AllUsable(claim, live, d.ctx) && SomeAdverse(Firsts(live))
    ensures id in d.claims ==>
              forall e :: e in Surviving(EvidenceFor(d, d.claims[id]), d.nodes) <==>
                          e in EvidenceFor(d, d.claims[id]) && !ListedAsUnreliable(d.nodes, e.id)
  {
    if id in d.claims {
      var given := EvidenceFor(d, d.claims[id]);
      VerdictInFields(d.claims[id], Surviving(given, d.nodes), d.ctx);
      forall e { SurvivingExactly(given, d.nodes, e); }
    }
  }

  type Standings = string -> Standing

  ghost function StandingsOf(d: Dossier): Standings {
    id => StandingOf(d, id)
  }

  predicate Held(st: Standings, id: string) {
    st(id) == Judged(Supported)
  }

  predicate Falsified(st: Standings, id: string) {
    st(id) == Judged(Contradicted)
  }

  /** What it takes to be satisfied under a rule. */
  ghost predicate Meets(o: Objective, rule: Rule, st: Standings) {
    && o.qualification == "QUALIFIED"
    && (exists r :: r in o.reqs && Held(st, r.id) && (rule.Alternatives? ==> r.id in rule.ids))
    && (forall r :: r in o.reqs && r.blocking ==>
          Held(st, r.id) || (rule.Alternatives? && r.id in rule.ids && !Falsified(st, r.id)))
  }

  datatype Tally = Tally(satisfied: seq<string>, unresolved: seq<string>, falsified: seq<string>)

  function Count(t: Tally, r: Requirement, st: Standings): Tally {
    if Held(st, r.id) then t.(satisfied := t.satisfied + [r.id])
    else if !r.blocking then t
    else if Falsified(st, r.id) then t.(falsified := t.falsified + [r.id])
    else t.(unresolved := t.unresolved + [r.id])
  }

  function CountAll(reqs: seq<Requirement>, st: Standings, n: nat): Tally
    requires n <= |reqs|
  {
    if n == 0 then Tally([], [], []) else Count(CountAll(reqs, st, n - 1), reqs[n - 1], st)
  }

  ghost predicate Named(reqs: seq<Requirement>, n: nat, id: string)
    requires n <= |reqs|
  {
    exists k :: 0 <= k < n && reqs[k].id == id
  }

  ghost predicate Demanded(reqs: seq<Requirement>, n: nat, id: string)
    requires n <= |reqs|
  {
    exists k :: 0 <= k < n && reqs[k].id == id && reqs[k].blocking
  }

  lemma {:induction false} NamedStep(reqs: seq<Requirement>, n: nat, id: string)
    requires 0 < n <= |reqs|
    ensures Named(reqs, n, id) <==> Named(reqs, n - 1, id) || reqs[n - 1].id == id
    ensures Demanded(reqs, n, id) <==> Demanded(reqs, n - 1, id) || (reqs[n - 1].id == id && reqs[n - 1].blocking)
  {
  }

  /** The three lists hold exactly the ids their names say. */
  lemma {:induction false} TallyHolds(reqs: seq<Requirement>, st: Standings, n: nat, id: string)
    requires n <= |reqs|
    ensures var t := CountAll(reqs, st, n);
            && (id in t.satisfied <==> Named(reqs, n, id) && Held(st, id))
            && (id in t.falsified <==> Demanded(reqs, n, id) && Falsified(st, id))
            && (id in t.unresolved <==> Demanded(reqs, n, id) && !Held(st, id) && !Falsified(st, id))
  {
    if n > 0 {
      TallyHolds(reqs, st, n - 1, id);
      NamedStep(reqs, n, id);
    }
  }

  /** A sorted list of ids is its multiset. */
  datatype SufficiencyProof = SufficiencyProof(
    satisfied: bool, satisfiedIds: multiset<string>, unresolvedIds: multiset<string>, falsifiedIds: multiset<string>,
        rule: Rule)

  method EvaluateSpecification(o: Objective, rule: Rule, d: Dossier) returns (proof: SufficiencyProof)
    ensures proof.satisfied <==> Meets(o, rule, StandingsOf(d))
    ensures o.qualification == "QUALIFIED" && (o.reqs != [] || o.blank) ==>
              var t := CountAll(o.reqs, StandingsOf(d), |o.reqs|);
              proof == SufficiencyProof(proof.satisfied, multiset(t.satisfied), multiset(t.unresolved),
                  multiset(t.falsified), rule)
    ensures o.qualification != "QUALIFIED" ==>
              proof == SufficiencyProof(false, multiset{}, multiset{"UNQUALIFIED_SPECIFICATION_" + o.qualification},
                  multiset{}, rule)
    ensures o.qualification == "QUALIFIED" && o.reqs == [] && !o.blank ==>
              proof == SufficiencyProof(false, multiset{}, multiset{"INSUFFICIENT_REQUIREMENTS_EMPTY_SET"}, multiset{},
                  rule)
  {
    if o.qualification != "QUALIFIED" {
      return SufficiencyProof(false, multiset{}, multiset{"UNQUALIFIED_SPECIFICATION_" + o.qualification}, multiset{},
          rule);
    }
    if o.reqs == [] && !o.blank {
      return SufficiencyProof(false, multiset{}, multiset{"INSUFFICIENT_REQUIREMENTS_EMPTY_SET"}, multiset{}, rule);
    }
    var satisfied, unresolved, falsified := [], [], [];
    for i := 0 to |o.reqs|
      invariant Tally(satisfied, unresolved, falsified) == CountAll(o.reqs, StandingsOf(d), i)
    {
      var req := o.reqs[i];
      var standing := Assess(req.id, d);
      if standing == Judged(Supported) {
        satisfied := satisfied + [req.id];
      } else if req.blocking {
        if standing == Judged(Contradicted) {
          falsified := falsified + [req.id];
        } else {
          unresolved := unresolved + [req.id];
        }
      }
    }
    var ok := Compose(rule, satisfied, unresolved, falsified);
    TallyDecides(o, rule, StandingsOf(d));
    proof := SufficiencyProof(ok, multiset(satisfied), multiset(unresolved), multiset(falsified), rule);
  }

  method Assess(id: string, d: Dossier) returns (standing: Standing)
    ensures standing == StandingOf(d, id)
  {
    if id !in d.claims { return Unclaimed; }
    if Retracted(d.nodes, id) { return Withdrawn; }
    var claim := d.claims[id];
    var kept := KeepSurviving(EvidenceFor(d, claim), d.nodes);
    var status, applies := EvaluateClaim(claim, kept, d.ctx);
    standing := Judged(status);
  }

  method KeepSurviving(evs: seq<Evidence>, nodes: Nodes) returns (kept: seq<Evidence>)
    ensures kept == Surviving(evs, nodes)
  {
    kept := [];
    for i := 0 to |evs|
      invariant kept == Surviving(evs[..i], nodes)
    {
      assert evs[..i + 1][..i] == evs[..i];
      if Retracted(nodes, evs[i].id) { continue; }
      kept := kept + [evs[i]];
    }
    assert evs[..|evs|] == evs;
  }

  predicate Composed(rule: Rule, satisfied: seq<string>, unresolved: seq<string>, falsified: seq<string>) {
    && falsified == []
    && if rule.Alternatives?
       then (exists id :: id in satisfied && id in rule.ids) && (forall id :: id in unresolved ==> id in rule.ids)
       else unresolved == [] && satisfied != []
  }

  method Compose(rule: Rule, satisfied: seq<string>, unresolved: seq<string>, falsified: seq<string>) returns (ok: bool)
    ensures ok <==> Composed(rule, satisfied, unresolved, falsified)
  {
    if falsified != [] { return false; }
    match rule
    case Alternatives(ids) =>
      var hit := exists id :: id in satisfied && id in ids;
      ok := hit && forall id :: id in unresolved ==> id in ids;
    case _ =>
      ok := unresolved == [] && satisfied != [];
  }

  lemma {:induction false} EmptyMeansNone(ids: seq<string>)
    ensures ids == [] <==> forall id :: id !in ids
  {
    if ids != [] { assert ids[0] in ids; }
  }

  lemma {:induction false} TallyDecides(o: Objective, rule: Rule, st: Standings)
    requires o.qualification == "QUALIFIED"
    ensures var t := CountAll(o.reqs, st, |o.reqs|);
            Composed(rule, t.satisfied, t.unresolved, t.falsified) <==> Meets(o, rule, st)
  {
    var n := |o.reqs|;
    var t := CountAll(o.reqs, st, n);
    forall id {
      TallyHolds(o.reqs, st, n, id);
    }
    EmptyMeansNone(t.satisfied);
    EmptyMeansNone(t.unresolved);
    EmptyMeansNone(t.falsified);
    if Meets(o, rule, st) {
      var r :| r in o.reqs && Held(st, r.id) && (rule.Alternatives? ==> r.id in rule.ids);
      assert Named(o.reqs, n, r.id);
      assert r.id in t.satisfied;
    }
    if Composed(rule, t.satisfied, t.unresolved, t.falsified) {
      forall r | r in o.reqs && r.blocking
        ensures Held(st, r.id) || (rule.Alternatives? && r.id in rule.ids && !Falsified(st, r.id))
      {
        assert Demanded(o.reqs, n, r.id);
      }
    }
  }

  // ---- Retraction ----

  /** `more` retracts at least what `d` does, and differs on no evidence. */
  ghost predicate RetractsRequirements(d: Dossier, more: Dossier) {
    && more == d.(nodes := more.nodes)
    && (forall id :: Retracted(d.nodes, id) ==> Retracted(more.nodes, id))
    && (forall claim, e :: claim in d.evidence && e in d.evidence[claim] ==>
          Retracted(d.nodes, e.id) == Retracted(more.nodes, e.id))
  }

  lemma {:induction false} SurvivingAlike(evs: seq<Evidence>, a: Nodes, b: Nodes)
    requires forall e :: e in evs ==> Retracted(a, e.id) == Retracted(b, e.id)
    ensures Surviving(evs, a) == Surviving(evs, b)
  {
    if evs != [] {
      var n := |evs| - 1;
      assert forall e :: e in evs[..n] ==> e in evs;
      SurvivingAlike(evs[..n], a, b);
      assert evs[n] in evs;
    }
  }

  /** Retracting requirement nodes leaves every other requirement where it stood. */
  lemma {:induction false} RetractionOnlyWithdraws(d: Dossier, more: Dossier, id: string)
    requires RetractsRequirements(d, more)
    ensures StandingOf(more, id) == if id in d.claims && Retracted(more.nodes, id) then Withdrawn else StandingOf(d, id)
  {
    if id in d.claims && !Retracted(more.nodes, id) {
      SurvivingAlike(EvidenceFor(d, d.claims[id]), d.nodes, more.nodes);
    }
  }

  /** Except under alternatives, retracting requirement nodes never turns an unsatisfied objective into a satisfied
      one. */
  lemma {:induction false} RetractionNeverSatisfies(o: Objective, rule: Rule, d: Dossier, more: Dossier)
    requires !rule.Alternatives? && RetractsRequirements(d, more) && Meets(o, rule, StandingsOf(more))
    ensures Meets(o, rule, StandingsOf(d))
  {
    StillHeld(d, more);
  }

  lemma {:induction false} StillHeld(d: Dossier, more: Dossier)
    requires RetractsRequirements(d, more)
    ensures forall id :: Held(StandingsOf(more), id) ==> Held(StandingsOf(d), id)
  {
    forall id | Held(StandingsOf(more), id) ensures Held(StandingsOf(d), id) { RetractionOnlyWithdraws(d, more, id); }
  }

  /** `Meets` under alternatives without its clause on falsification. */
  ghost predicate Within(o: Objective, ids: set<string>, st: Standings) {
    && o.qualification == "QUALIFIED"
    && (exists r :: r in o.reqs && Held(st, r.id) && r.id in ids)
    && (forall r :: r in o.reqs && r.blocking ==> Held(st, r.id) || r.id in ids)
  }

  /** Whether some piece of evidence goes by this id. */
  ghost predicate IsEvidence(d: Dossier, id: string) {
    exists claim, e :: claim in d.evidence && e in d.evidence[claim] && e.id == id
  }

  ghost predicate Hinders(o: Objective, ids: set<string>, d: Dossier, r: Requirement) {
    r in o.reqs && r.blocking && r.id in ids && Falsified(StandingsOf(d), r.id)
  }

  /** The dossier with every hindering alternative invalidated. */
  ghost function WithdrawFalsified(o: Objective, ids: set<string>, d: Dossier): Dossier {
    var hindering := set r | r in o.reqs && Hinders(o, ids, d, r) :: r.id;
    d.(nodes := d.nodes + map id | id in hindering :: InvalidatedNode)
  }

  lemma {:induction false} FalsifiedAreWithdrawn(o: Objective, ids: set<string>, d: Dossier)
    requires forall r :: Hinders(o, ids, d, r) ==> !IsEvidence(d, r.id)
    ensures RetractsRequirements(d, WithdrawFalsified(o, ids, d))
  {
    var more := WithdrawFalsified(o, ids, d);
    forall claim, e | claim in d.evidence && e in d.evidence[claim]
      ensures Retracted(d.nodes, e.id) == Retracted(more.nodes, e.id)
    {
      assert IsEvidence(d, e.id);
    }
  }

  lemma {:induction false} OnlyFalsifiedChange(o: Objective, ids: set<string>, d: Dossier, r: Requirement)
    requires RetractsRequirements(d, WithdrawFalsified(o, ids, d)) && r in o.reqs
    ensures var st := StandingsOf(WithdrawFalsified(o, ids, d));
            && (Held(StandingsOf(d), r.id) ==> Held(st, r.id))
            && (r.blocking && r.id in ids ==> !Falsified(st, r.id))
  {
    var more := WithdrawFalsified(o, ids, d);
    RetractionOnlyWithdraws(d, more, r.id);
    if Hinders(o, ids, d, r) { assert Retracted(more.nodes, r.id); }
  }

  /**
   Under alternatives some retraction of requirement nodes satisfies the objective exactly when only falsified
   alternatives stand in the way and none of them shares its id with a piece of evidence.
   */
  lemma {:induction false} RetractionSatisfiesAlternativesExactly(o: Objective, ids: set<string>, d: Dossier)
    ensures (exists more :: RetractsRequirements(d, more) && Meets(o, Alternatives(ids), StandingsOf(more))) <==>
            Within(o, ids, StandingsOf(d)) && forall r :: Hinders(o, ids, d, r) ==> !IsEvidence(d, r.id)
  {
    if more :| RetractsRequirements(d, more) && Meets(o, Alternatives(ids), StandingsOf(more)) {
      StillHeld(d, more);
      forall r | Hinders(o, ids, d, r) ensures !IsEvidence(d, r.id) {
        RetractionOnlyWithdraws(d, more, r.id);
      }
    }
    if Within(o, ids, StandingsOf(d)) && forall r :: Hinders(o, ids, d, r) ==> !IsEvidence(d, r.id) {
      FalsifiedAreWithdrawn(o, ids, d);
      forall r | r in o.reqs { OnlyFalsifiedChange(o, ids, d, r); }
      assert Meets(o, Alternatives(ids), StandingsOf(WithdrawFalsified(o, ids, d)));
    }
  }

  lemma {:induction false} SurvivingPair(a: Evidence, b: Evidence, nodes: Nodes)
    requires !Retracted(nodes, a.id)
    ensures Surviving([a, b], nodes) == if Retracted(nodes, b.id) then [a] else [a, b]
  {
    assert [a][..0] == [];
    assert Surviving([a], nodes) == [a];
    assert [a, b][..1] == [a];
  }

  lemma {:induction false} PairVerdicts(claim: Claim, good: Evidence, bad: Evidence, ctx: Context)
    requires Weigh(claim, good, ctx) == Supports && Weigh(claim, bad, ctx) == Contradicts && good.Key() != bad.Key()
    ensures Verdict(claim, Firsts([good, bad]), ctx) == Contradicted
    ensures Verdict(claim, Firsts([good]), ctx) == Supported
  {
    assert [good, bad][1] == bad && Fresh([good, bad], 1);
    assert bad in Firsts([good, bad]);
    assert [good][0] == good && Fresh([good], 0);
    assert good in Firsts([good]);
  }

  lemma {:induction false} PairStanding(
      id: string, claim: Claim, good: Evidence, bad: Evidence, ctx: Context, nodes: Nodes)
    requires Weigh(claim, good, ctx) == Supports && Weigh(claim, bad, ctx) == Contradicts && good.Key() != bad.Key()
    requires !Retracted(nodes, id) && !Retracted(nodes, good.id)
    ensures StandingOf(Dossier(map[id := claim], map[claim.id := [good, bad]], ctx, nodes), id) ==
            Judged(if Retracted(nodes, bad.id) then Supported else Contradicted)
  {
    SurvivingPair(good, bad, nodes);
    PairVerdicts(claim, good, bad, ctx);
  }

  lemma {:induction false} SingleRequirement(r: Requirement, st: Standings)
    ensures Meets(Objective("QUALIFIED", false, [r]), Conjunction, st) <==> Held(st, r.id)
  {
    assert r in [r];
  }

  /** Retracting evidence can help under any rule: without its one refutation a contradicted claim is supported. */
  lemma {:induction false} RetractedRefutationSatisfies(
      r: Requirement, claim: Claim, good: Evidence, bad: Evidence, ctx: Context)
    requires Weigh(claim, good, ctx) == Supports && Weigh(claim, bad, ctx) == Contradicts
    requires good.Key() != bad.Key() && good.id != bad.id && r.id != bad.id
    ensures var o := Objective("QUALIFIED", false, [r]);
            var d := Dossier(map[r.id := claim], map[claim.id := [good, bad]], ctx, map[]);
            && !Meets(o, Conjunction, StandingsOf(d))
            && Meets(o, Conjunction, StandingsOf(d.(nodes := map[bad.id := InvalidatedNode])))
  {
    var d := Dossier(map[r.id := claim], map[claim.id := [good, bad]], ctx, map[]);
    var e := d.(nodes := map[bad.id := InvalidatedNode]);
    PairStanding(r.id, claim, good, bad, ctx, d.nodes);
    PairStanding(r.id, claim, good, bad, ctx, e.nodes);
    SingleRequirement(r, StandingsOf(d));
    SingleRequirement(r, StandingsOf(e));
  }
}
