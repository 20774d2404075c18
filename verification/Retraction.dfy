/** What retracting evidence nodes can achieve: the evidence that may stay is a greatest fixed point. */
module Retraction {
  import opened Common
  import opened Substrate
  import opened Evidence
  import opened Sufficiency

  // ---- The largest set without blame ----

  type Blame = (set<string>, string) -> bool

  /** A blamed id is still blamed after others have gone. */
  ghost predicate Persistent(blames: Blame) {
    forall kept, fewer, x :: fewer <= kept && x in fewer && blames(kept, x) ==> blames(fewer, x)
  }

  ghost predicate Blameless(kept: set<string>, blames: Blame) {
    forall x :: x in kept ==> !blames(kept, x)
  }

  /** Drop blamed ids until there are none. */
  ghost function Pruned(kept: set<string>, blames: Blame): (r: set<string>)
    ensures r <= kept
    decreases kept
  {
    var blamed := set x | x in kept && blames(kept, x);
    if blamed == {} then kept
    else
      assert kept - blamed < kept;
      Pruned(kept - blamed, blames)
  }

  lemma {:induction false} PrunedIsBlameless(kept: set<string>, blames: Blame)
    ensures Blameless(Pruned(kept, blames), blames)
    decreases kept
  {
    var blamed := set x | x in kept && blames(kept, x);
    if blamed == {} {
      forall x | x in kept ensures !blames(kept, x) { assert x !in blamed; }
    } else {
      assert kept - blamed < kept;
      PrunedIsBlameless(kept - blamed, blames);
    }
  }

  lemma {:induction false} PrunedIsLargest(kept: set<string>, blames: Blame, other: set<string>)
    requires Persistent(blames) && Blameless(other, blames) && other <= kept
    ensures other <= Pruned(kept, blames)
    decreases kept
  {
    var blamed := set x | x in kept && blames(kept, x);
    if blamed != {} {
      assert kept - blamed < kept;
      forall x | x in other ensures x !in blamed {
        assert blames(kept, x) ==> blames(other, x);
      }
      PrunedIsLargest(kept - blamed, blames, other);
    }
  }

  // ---- The first items among those kept ----

  /** Item i is kept and no kept item before it has the same digests. */
  ghost predicate Leads(evs: seq<Evidence>, kept: set<string>, i: nat)
    requires i < |evs|
  {
    evs[i].id in kept && forall j :: 0 <= j < i && evs[j].id in kept ==> evs[j].Key() != evs[i].Key()
  }

  ghost function Leading(evs: seq<Evidence>, kept: set<string>): set<Evidence> {
    set i | 0 <= i < |evs| && Leads(evs, kept, i) :: evs[i]
  }

  /** The nodes retract exactly what is not kept. */
  ghost predicate Keeps(evs: seq<Evidence>, nodes: Nodes, kept: set<string>) {
    forall e :: e in evs ==> (Retracted(nodes, e.id) <==> e.id !in kept)
  }

  lemma {:induction false} FirstsSnoc(evs: seq<Evidence>, e: Evidence, f: Evidence)
    ensures f in Firsts(evs + [e]) <==> f in Firsts(evs) || (f == e && forall g :: g in evs ==> g.Key() != e.Key())
  {
    var all := evs + [e];
    forall i: nat | i < |evs| ensures Fresh(all, i) <==> Fresh(evs, i) {
      assert forall j :: 0 <= j <= i ==> all[j] == evs[j];
    }
    assert all[|evs|] == e;
    if forall g :: g in evs ==> g.Key() != e.Key() { assert Fresh(all, |evs|); }
    if f in Firsts(evs) {
      var i :| 0 <= i < |evs| && Fresh(evs, i) && evs[i] == f;
      assert all[i] == f;
    }
  }

  lemma {:induction false} LeadingSnoc(evs: seq<Evidence>, kept: set<string>, f: Evidence)
    requires evs != []
    ensures var n := |evs| - 1;
            f in Leading(evs, kept) <==> f in Leading(evs[..n], kept) || (f == evs[n] && Leads(evs, kept, n))
  {
    var n := |evs| - 1;
    forall i: nat | i < n ensures Leads(evs, kept, i) <==> Leads(evs[..n], kept, i) {
      assert forall j :: 0 <= j <= i ==> evs[..n][j] == evs[j];
    }
    if f in Leading(evs[..n], kept) {
      var i :| 0 <= i < n && Leads(evs[..n], kept, i) && evs[..n][i] == f;
      assert evs[i] == f;
    }
  }

  lemma {:induction false} SurvivorsHaveKeys(evs: seq<Evidence>, nodes: Nodes, kept: set<string>, e: Evidence)
    requires Keeps(evs, nodes, kept)
    ensures (forall g :: g in Surviving(evs, nodes) ==> g.Key() != e.Key()) <==>
            (forall j :: 0 <= j < |evs| && evs[j].id in kept ==> evs[j].Key() != e.Key())
  {
    forall g ensures g in Surviving(evs, nodes) <==> g in evs && g.id in kept { SurvivingExactly(evs, nodes, g); }
    forall j | 0 <= j < |evs| && evs[j].id in kept ensures evs[j] in Surviving(evs, nodes) { assert evs[j] in evs; }
  }

  lemma {:induction false} SurvivingSnoc(evs: seq<Evidence>, nodes: Nodes, kept: set<string>, f: Evidence)
    requires evs != [] && Keeps(evs, nodes, kept)
    ensures var n := |evs| - 1;
            f in Firsts(Surviving(evs, nodes)) <==>
            f in Firsts(Surviving(evs[..n], nodes)) || (f == evs[n] && Leads(evs, kept, n))
  {
    var n := |evs| - 1;
    var rest := Surviving(evs[..n], nodes);
    assert evs[n] in evs;
    if Retracted(nodes, evs[n].id) {
      assert Surviving(evs, nodes) == rest + [] == rest;
    } else {
      assert forall e :: e in evs[..n] ==> e in evs;
      SurvivorsHaveKeys(evs[..n], nodes, kept, evs[n]);
      FirstsSnoc(rest, evs[n], f);
    }
  }

  /** The evaluator looks at exactly the leading items. */
  lemma {:induction false} SurvivingFirstsLead(evs: seq<Evidence>, nodes: Nodes, kept: set<string>, f: Evidence)
    requires Keeps(evs, nodes, kept)
    ensures f in Firsts(Surviving(evs, nodes)) <==> f in Leading(evs, kept)
  {
    if evs != [] {
      var n := |evs| - 1;
      assert forall e :: e in evs[..n] ==> e in evs;
      SurvivingFirstsLead(evs[..n], nodes, kept, f);
      LeadingSnoc(evs, kept, f);
      SurvivingSnoc(evs, nodes, kept, f);
    }
  }

  // ---- Which kept items do harm ----

  /** Item i is kept and harms, and no harmless kept item before it has the same digests. */
  ghost predicate Offends(evs: seq<Evidence>, kept: set<string>, i: nat, harms: Evidence -> bool)
    requires i < |evs|
  {
    evs[i].id in kept && harms(evs[i]) &&
    forall j :: 0 <= j < i && evs[j].id in kept && evs[j].Key() == evs[i].Key() ==> harms(evs[j])
  }

  ghost predicate OffendsBy(evs: seq<Evidence>, kept: set<string>, id: string, harms: Evidence -> bool) {
    exists i: nat :: i < |evs| && evs[i].id == id && Offends(evs, kept, i, harms)
  }

  ghost predicate Unharmed(evs: seq<Evidence>, kept: set<string>, harms: Evidence -> bool) {
    forall id :: id in kept ==> !OffendsBy(evs, kept, id, harms)
  }

  lemma {:induction false} HasLeader(evs: seq<Evidence>, kept: set<string>, i: nat) returns (j: nat)
    requires i < |evs| && evs[i].id in kept
    ensures j <= i && Leads(evs, kept, j) && evs[j].Key() == evs[i].Key()
    decreases i
  {
    if Leads(evs, kept, i) { return i; }
    var k :| 0 <= k < i && evs[k].id in kept && evs[k].Key() == evs[i].Key();
    j := HasLeader(evs, kept, k);
  }

  /** Nothing offends exactly when no leading item harms. */
  lemma {:induction false} UnharmedExactly(evs: seq<Evidence>, kept: set<string>, harms: Evidence -> bool)
    ensures Unharmed(evs, kept, harms) <==> !AnyOf(Leading(evs, kept), harms)
  {
    if AnyOf(Leading(evs, kept), harms) {
      var e :| e in Leading(evs, kept) && harms(e);
      var i: nat :| i < |evs| && Leads(evs, kept, i) && evs[i] == e;
      assert Offends(evs, kept, i, harms);
      assert OffendsBy(evs, kept, evs[i].id, harms);
    }
    if !Unharmed(evs, kept, harms) {
      var id :| id in kept && OffendsBy(evs, kept, id, harms);
      var i: nat :| i < |evs| && evs[i].id == id && Offends(evs, kept, i, harms);
      var j := HasLeader(evs, kept, i);
      assert harms(evs[j]) && evs[j] in Leading(evs, kept);
    }
  }

  lemma {:induction false} OffencePersists(
      evs: seq<Evidence>, kept: set<string>, fewer: set<string>, id: string, harms: Evidence -> bool)
    requires fewer <= kept && id in fewer && OffendsBy(evs, kept, id, harms)
    ensures OffendsBy(evs, fewer, id, harms)
  {
    var i: nat :| i < |evs| && evs[i].id == id && Offends(evs, kept, i, harms);
    assert Offends(evs, fewer, i, harms);
  }

  /** Some kept item passes. */
  ghost predicate KeepsAny(evs: seq<Evidence>, kept: set<string>, p: Evidence -> bool) {
    exists e :: e in evs && e.id in kept && p(e)
  }

  predicate Harms(b: Bearing) { b.Unusable? || b.Contradicts? }

  // ---- One requirement ----

  ghost predicate Supportable(claim: Claim, evs: seq<Evidence>, ctx: Context, kept: set<string>) {
    Unharmed(evs, kept, Saying(claim, ctx, Harms)) && KeepsAny(evs, kept, Saying(claim, ctx, Backs))
  }

  ghost predicate Spared(claim: Claim, evs: seq<Evidence>, ctx: Context, kept: set<string>) {
    KeepsAny(evs, kept, Saying(claim, ctx, Spoils)) || Unharmed(evs, kept, Saying(claim, ctx, Refutes))
  }

  lemma {:induction false} LeaderOf(evs: seq<Evidence>, kept: set<string>, e: Evidence) returns (f: Evidence)
    requires e in evs && e.id in kept
    ensures f in Leading(evs, kept) && f.Key() == e.Key()
  {
    var i :| 0 <= i < |evs| && evs[i] == e;
    var j := HasLeader(evs, kept, i);
    f := evs[j];
  }

  lemma {:induction false} LeadersAreKept(evs: seq<Evidence>, kept: set<string>, f: Evidence)
    requires f in Leading(evs, kept)
    ensures f in evs && f.id in kept
  {
  }

  lemma {:induction false} SpoiledByLeader(claim: Claim, evs: seq<Evidence>, ctx: Context, kept: set<string>)
    ensures KeepsAny(evs, kept, Saying(claim, ctx, Spoils)) <==> Anything(claim, Leading(evs, kept), ctx, Spoils)
  {
    if KeepsAny(evs, kept, Saying(claim, ctx, Spoils)) {
      var e :| e in evs && e.id in kept && Saying(claim, ctx, Spoils)(e);
      var f := LeaderOf(evs, kept, e);
      SameDefect(claim, ctx, e, f);
    }
    if Anything(claim, Leading(evs, kept), ctx, Spoils) {
      var f :| f in Leading(evs, kept) && Spoils(Weigh(claim, f, ctx));
      LeadersAreKept(evs, kept, f);
      assert Saying(claim, ctx, Spoils)(f);
    }
  }

  lemma {:induction false} BackedByLeader(claim: Claim, evs: seq<Evidence>, ctx: Context, kept: set<string>)
    requires !Anything(claim, Leading(evs, kept), ctx, Harms)
    ensures KeepsAny(evs, kept, Saying(claim, ctx, Backs)) <==> Anything(claim, Leading(evs, kept), ctx, Backs)
  {
    if KeepsAny(evs, kept, Saying(claim, ctx, Backs)) {
      var e :| e in evs && e.id in kept && Saying(claim, ctx, Backs)(e);
      var f := LeaderOf(evs, kept, e);
      SameDefect(claim, ctx, e, f);
    }
    if Anything(claim, Leading(evs, kept), ctx, Backs) {
      var f :| f in Leading(evs, kept) && Backs(Weigh(claim, f, ctx));
      LeadersAreKept(evs, kept, f);
      assert Saying(claim, ctx, Backs)(f);
    }
  }

  lemma {:induction false} SupportedExactly(claim: Claim, evs: seq<Evidence>, ctx: Context, kept: set<string>)
    ensures Verdict(claim, Leading(evs, kept), ctx) == Supported <==> Supportable(claim, evs, ctx, kept)
  {
    var first := Leading(evs, kept);
    UnharmedExactly(evs, kept, Saying(claim, ctx, Harms));
    AnythingIsAny(claim, first, ctx, Harms);
    HarmIsEither(claim, first, ctx);
    if !Anything(claim, first, ctx, Harms) { BackedByLeader(claim, evs, ctx, kept); }
  }

  lemma {:induction false} HarmIsEither(claim: Claim, evs: set<Evidence>, ctx: Context)
    ensures Anything(claim, evs, ctx, Harms) <==>
            Anything(claim, evs, ctx, Spoils) || Anything(claim, evs, ctx, Refutes)
  {
  }

  lemma {:induction false} NotContradictedExactly(claim: Claim, evs: seq<Evidence>, ctx: Context, kept: set<string>)
    ensures Verdict(claim, Leading(evs, kept), ctx) != Contradicted <==> Spared(claim, evs, ctx, kept)
  {
    SpoiledByLeader(claim, evs, ctx, kept);
    UnharmedExactly(evs, kept, Saying(claim, ctx, Refutes));
    AnythingIsAny(claim, Leading(evs, kept), ctx, Refutes);
  }

  // ---- All requirements together ----

  /** The evidence given for the claim of a requirement. */
  function Given(d: Dossier, id: string): seq<Evidence>
    requires id in d.claims
  {
    EvidenceFor(d, d.claims[id])
  }

  /** Requirements that have to be held if the one called `hit` is to be the satisfied one. */
  function Needed(o: Objective, rule: Rule, hit: string): set<string> {
    {hit} + set r | r in o.reqs && r.blocking && !(rule.Alternatives? && r.id in rule.ids) :: r.id
  }

  /** Blocking alternatives in force, which only must not be falsified. */
  function Optional(o: Objective, rule: Rule, d: Dossier): set<string> {
    set r | r in o.reqs && r.blocking && rule.Alternatives? && r.id in rule.ids && r.id in d.claims &&
            !Retracted(d.nodes, r.id) :: r.id
  }

  /** Evidence nodes may be retracted; the nodes of the objective's requirements stay as they are. */
  ghost predicate RetractsEvidence(o: Objective, d: Dossier, more: Dossier) {
    && more == d.(nodes := more.nodes)
    && (forall id :: Retracted(d.nodes, id) ==> Retracted(more.nodes, id))
    && (forall r :: r in o.reqs ==> Retracted(d.nodes, r.id) == Retracted(more.nodes, r.id))
  }

  /** Ids in force: of evidence and of the objective's requirements. */
  ghost function InForce(o: Objective, d: Dossier): set<string> {
    var evidence := set claim, e | claim in d.evidence && e in d.evidence[claim] :: e.id;
    var requirements := set r | r in o.reqs :: r.id;
    set id | id in evidence + requirements && !Retracted(d.nodes, id)
  }

  /** With these ids kept, this one spoils a requirement that is needed, or falsifies an optional one. */
  ghost predicate Harmful(d: Dossier, needed: set<string>, optional: set<string>, kept: set<string>, x: string) {
    || (exists id :: id in needed && id in d.claims &&
          OffendsBy(Given(d, id), kept, x, Saying(d.claims[id], d.ctx, Harms)))
    || (exists id :: id in optional && id in d.claims &&
          !KeepsAny(Given(d, id), kept, Saying(d.claims[id], d.ctx, Spoils)) &&
          OffendsBy(Given(d, id), kept, x, Saying(d.claims[id], d.ctx, Refutes)))
  }

  ghost function HarmfulIn(d: Dossier, needed: set<string>, optional: set<string>): Blame {
    (kept, x) => Harmful(d, needed, optional, kept, x)
  }

  /** The ids that may stay when `hit` is to be satisfied. */
  ghost function MayStay(o: Objective, rule: Rule, d: Dossier, hit: string): set<string> {
    Pruned(InForce(o, d), HarmfulIn(d, Needed(o, rule, hit), Optional(o, rule, d)))
  }

  /**
   All requirement nodes in force may stay, and every needed requirement is claimed, in force and has a supporting
   item that may stay.
   */
  ghost predicate Attainable(o: Objective, rule: Rule, d: Dossier, hit: string) {
    var stay := MayStay(o, rule, d, hit);
    && (forall r :: r in o.reqs && !Retracted(d.nodes, r.id) ==> r.id in stay)
    && (forall id :: id in Needed(o, rule, hit) ==>
          && id in d.claims && !Retracted(d.nodes, id)
          && KeepsAny(Given(d, id), stay, Saying(d.claims[id], d.ctx, Backs)))
  }

  lemma {:induction false} KeepsMore(evs: seq<Evidence>, fewer: set<string>, kept: set<string>, p: Evidence -> bool)
    requires fewer <= kept && KeepsAny(evs, fewer, p)
    ensures KeepsAny(evs, kept, p)
  {
    var e :| e in evs && e.id in fewer && p(e);
    assert e.id in kept;
  }

  lemma {:induction false} HarmPersists(d: Dossier, needed: set<string>, optional: set<string>)
    ensures Persistent(HarmfulIn(d, needed, optional))
  {
    forall kept, fewer, x | fewer <= kept && x in fewer && Harmful(d, needed, optional, kept, x)
      ensures Harmful(d, needed, optional, fewer, x)
    {
      HarmPersistsFor(d, needed, optional, kept, fewer, x);
    }
  }

  lemma {:induction false} HarmPersistsFor(
      d: Dossier, needed: set<string>, optional: set<string>, kept: set<string>, fewer: set<string>, x: string)
    requires fewer <= kept && x in fewer && Harmful(d, needed, optional, kept, x)
    ensures Harmful(d, needed, optional, fewer, x)
  {
    if id :| id in needed && id in d.claims &&
             OffendsBy(Given(d, id), kept, x, Saying(d.claims[id], d.ctx, Harms)) {
      OffencePersists(Given(d, id), kept, fewer, x, Saying(d.claims[id], d.ctx, Harms));
    } else {
      var id :| id in optional && id in d.claims &&
                !KeepsAny(Given(d, id), kept, Saying(d.claims[id], d.ctx, Spoils)) &&
                OffendsBy(Given(d, id), kept, x, Saying(d.claims[id], d.ctx, Refutes));
      OffencePersists(Given(d, id), kept, fewer, x, Saying(d.claims[id], d.ctx, Refutes));
      if KeepsAny(Given(d, id), fewer, Saying(d.claims[id], d.ctx, Spoils)) {
        KeepsMore(Given(d, id), fewer, kept, Saying(d.claims[id], d.ctx, Spoils));
      }
    }
  }

  /** No kept id is harmful exactly when each needed requirement is unharmed and each optional one is spared. */
  lemma {:induction false} HarmlessExactly(d: Dossier, needed: set<string>, optional: set<string>, kept: set<string>)
    ensures Blameless(kept, HarmfulIn(d, needed, optional)) <==>
            && (forall id :: id in needed && id in d.claims ==>
                  Unharmed(Given(d, id), kept, Saying(d.claims[id], d.ctx, Harms)))
            && (forall id :: id in optional && id in d.claims ==>
                  Spared(d.claims[id], Given(d, id), d.ctx, kept))
  {
    var blames := HarmfulIn(d, needed, optional);
    if Blameless(kept, blames) {
      forall id, x | id in needed && id in d.claims && x in kept
        ensures !OffendsBy(Given(d, id), kept, x, Saying(d.claims[id], d.ctx, Harms))
      {
        assert !blames(kept, x);
      }
      forall id | id in optional && id in d.claims ensures Spared(d.claims[id], Given(d, id), d.ctx, kept) {
        forall x | x in kept ensures !blames(kept, x) {}
      }
    }
  }

  /** A dossier that keeps exactly these of the ids in force. */
  ghost predicate Leaves(o: Objective, d: Dossier, more: Dossier, kept: set<string>) {
    RetractsEvidence(o, d, more) && kept == set id | id in InForce(o, d) && !Retracted(more.nodes, id)
  }

  lemma {:induction false} GivenIsKept(o: Objective, d: Dossier, more: Dossier, kept: set<string>, id: string)
    requires Leaves(o, d, more, kept) && id in d.claims
    ensures Keeps(Given(d, id), more.nodes, kept)
  {
    forall e | e in Given(d, id) ensures Retracted(more.nodes, e.id) <==> e.id !in kept {
      assert d.claims[id].id in d.evidence && e in d.evidence[d.claims[id].id];
    }
  }

  /** Where a requirement stands once only these ids are kept. */
  lemma {:induction false} StandingLeft(o: Objective, d: Dossier, more: Dossier, kept: set<string>, id: string)
    requires Leaves(o, d, more, kept) && id in d.claims
    ensures StandingOf(more, id) ==
            if Retracted(more.nodes, id) then Withdrawn
            else Judged(Verdict(d.claims[id], Leading(Given(d, id), kept), d.ctx))
  {
    GivenIsKept(o, d, more, kept, id);
    forall f ensures f in Firsts(Surviving(Given(d, id), more.nodes)) <==> f in Leading(Given(d, id), kept) {
      SurvivingFirstsLead(Given(d, id), more.nodes, kept, f);
    }
    assert Firsts(Surviving(Given(d, id), more.nodes)) == Leading(Given(d, id), kept);
  }

  lemma {:induction false} HeldLeft(o: Objective, d: Dossier, more: Dossier, kept: set<string>, id: string)
    requires Leaves(o, d, more, kept)
    ensures Held(StandingsOf(more), id) <==>
            id in d.claims && !Retracted(more.nodes, id) && Supportable(d.claims[id], Given(d, id), d.ctx, kept)
  {
    if id in d.claims {
      StandingLeft(o, d, more, kept, id);
      SupportedExactly(d.claims[id], Given(d, id), d.ctx, kept);
    }
  }

  lemma {:induction false} FalsifiedLeft(o: Objective, d: Dossier, more: Dossier, kept: set<string>, id: string)
    requires Leaves(o, d, more, kept)
    ensures Falsified(StandingsOf(more), id) <==>
            id in d.claims && !Retracted(more.nodes, id) && !Spared(d.claims[id], Given(d, id), d.ctx, kept)
  {
    if id in d.claims {
      StandingLeft(o, d, more, kept, id);
      NotContradictedExactly(d.claims[id], Given(d, id), d.ctx, kept);
    }
  }

  /** Everything needed is held and nothing optional is falsified. */
  ghost predicate Achieved(o: Objective, rule: Rule, d: Dossier, st: Standings, hit: string) {
    && (forall id :: id in Needed(o, rule, hit) ==> Held(st, id))
    && (forall id :: id in Optional(o, rule, d) ==> !Falsified(st, id))
  }

  lemma {:induction false} MeetingAchieves(o: Objective, rule: Rule, d: Dossier, st: Standings, hit: Requirement)
    requires hit in o.reqs && Held(st, hit.id)
    requires forall r :: r in o.reqs && r.blocking ==>
               Held(st, r.id) || (rule.Alternatives? && r.id in rule.ids && !Falsified(st, r.id))
    ensures Achieved(o, rule, d, st, hit.id)
  {
  }

  lemma {:induction false} AchievingMeets(
      o: Objective, rule: Rule, d: Dossier, st: Standings, hit: Requirement, r: Requirement)
    requires Achieved(o, rule, d, st, hit.id) && r in o.reqs && r.blocking
    requires Falsified(st, r.id) ==> r.id in d.claims && !Retracted(d.nodes, r.id)
    ensures Held(st, r.id) || (rule.Alternatives? && r.id in rule.ids && !Falsified(st, r.id))
  {
    if rule.Alternatives? && r.id in rule.ids {
      assert Falsified(st, r.id) ==> r.id in Optional(o, rule, d);
    } else {
      assert r.id in Needed(o, rule, hit.id);
    }
  }

  lemma {:induction false} Achieves(o: Objective, rule: Rule, d: Dossier, st: Standings) returns (hit: Requirement)
    requires Meets(o, rule, st)
    ensures hit in o.reqs && (rule.Alternatives? ==> hit.id in rule.ids) && Achieved(o, rule, d, st, hit.id)
  {
    hit :| hit in o.reqs && Held(st, hit.id) && (rule.Alternatives? ==> hit.id in rule.ids);
    MeetingAchieves(o, rule, d, st, hit);
  }

  lemma {:induction false} AchievedMeets(o: Objective, rule: Rule, d: Dossier, more: Dossier, hit: Requirement)
    requires o.qualification == "QUALIFIED" && RetractsEvidence(o, d, more)
    requires hit in o.reqs && (rule.Alternatives? ==> hit.id in rule.ids)
    requires Achieved(o, rule, d, StandingsOf(more), hit.id)
    ensures Meets(o, rule, StandingsOf(more))
  {
    var st := StandingsOf(more);
    assert Held(st, hit.id);
    forall r | r in o.reqs && r.blocking
      ensures Held(st, r.id) || (rule.Alternatives? && r.id in rule.ids && !Falsified(st, r.id))
    {
      FalsifiedIsInForce(d, more, r.id);
      AchievingMeets(o, rule, d, st, hit, r);
    }
  }

  lemma {:induction false} FalsifiedIsInForce(d: Dossier, more: Dossier, id: string)
    requires more == d.(nodes := more.nodes) && (Retracted(d.nodes, id) ==> Retracted(more.nodes, id))
    ensures Falsified(StandingsOf(more), id) ==> id in d.claims && !Retracted(d.nodes, id)
  {
  }

  lemma {:induction false} KeptAreInForce(o: Objective, d: Dossier, more: Dossier, kept: set<string>, r: Requirement)
    requires Leaves(o, d, more, kept) && r in o.reqs
    ensures r.id in kept <==> !Retracted(d.nodes, r.id)
  {
  }

  /** What a retraction achieves is attainable. */
  lemma {:induction false} AchievedIsAttainable(
      o: Objective, rule: Rule, d: Dossier, more: Dossier, kept: set<string>, hit: Requirement)
    requires Leaves(o, d, more, kept) && hit in o.reqs && Achieved(o, rule, d, StandingsOf(more), hit.id)
    ensures Attainable(o, rule, d, hit.id)
  {
    var needed, optional := Needed(o, rule, hit.id), Optional(o, rule, d);
    forall id | id in needed
      ensures id in d.claims && !Retracted(more.nodes, id) && Supportable(d.claims[id], Given(d, id), d.ctx, kept)
    {
      HeldLeft(o, d, more, kept, id);
    }
    forall id | id in optional && id in d.claims ensures Spared(d.claims[id], Given(d, id), d.ctx, kept) {
      FalsifiedLeft(o, d, more, kept, id);
      assert !Retracted(more.nodes, id);
    }
    HarmlessExactly(d, needed, optional, kept);
    HarmPersists(d, needed, optional);
    PrunedIsLargest(InForce(o, d), HarmfulIn(d, needed, optional), kept);
    forall r | r in o.reqs && !Retracted(d.nodes, r.id) ensures r.id in kept { KeptAreInForce(o, d, more, kept, r); }
    forall id | id in needed
      ensures KeepsAny(Given(d, id), MayStay(o, rule, d, hit.id), Saying(d.claims[id], d.ctx, Backs))
    {
      KeepsMore(Given(d, id), kept, MayStay(o, rule, d, hit.id), Saying(d.claims[id], d.ctx, Backs));
    }
  }

  /** The dossier with everything in force but these ids invalidated. */
  ghost function Retract(o: Objective, d: Dossier, kept: set<string>): Dossier {
    d.(nodes := d.nodes + map id | id in InForce(o, d) - kept :: InvalidatedNode)
  }

  lemma {:induction false} RetractLeaves(o: Objective, d: Dossier, kept: set<string>)
    requires kept <= InForce(o, d)
    requires forall r :: r in o.reqs && !Retracted(d.nodes, r.id) ==> r.id in kept
    ensures Leaves(o, d, Retract(o, d, kept), kept)
  {
    var more := Retract(o, d, kept);
    forall id ensures Retracted(more.nodes, id) <==> Retracted(d.nodes, id) || id in InForce(o, d) - kept {}
  }

  /** What is attainable is achieved by retracting everything that may not stay. */
  lemma {:induction false} AttainableIsAchieved(o: Objective, rule: Rule, d: Dossier, hit: Requirement)
    requires hit in o.reqs && Attainable(o, rule, d, hit.id)
    ensures var more := Retract(o, d, MayStay(o, rule, d, hit.id));
            RetractsEvidence(o, d, more) && Achieved(o, rule, d, StandingsOf(more), hit.id)
  {
    var needed, optional := Needed(o, rule, hit.id), Optional(o, rule, d);
    var stay := MayStay(o, rule, d, hit.id);
    var more := Retract(o, d, stay);
    RetractLeaves(o, d, stay);
    PrunedIsBlameless(InForce(o, d), HarmfulIn(d, needed, optional));
    HarmlessExactly(d, needed, optional, stay);
    forall id | id in needed ensures Held(StandingsOf(more), id) {
      NeededIsRequired(o, rule, hit, id);
      HeldLeft(o, d, more, stay, id);
    }
    forall id | id in optional ensures !Falsified(StandingsOf(more), id) { FalsifiedLeft(o, d, more, stay, id); }
  }

  lemma {:induction false} NeededIsRequired(o: Objective, rule: Rule, hit: Requirement, id: string)
    requires hit in o.reqs && id in Needed(o, rule, hit.id)
    ensures exists r :: r in o.reqs && r.id == id
  {
  }

  /**
   Some retraction of evidence nodes satisfies the objective exactly when some requirement that may count is
   attainable.
   */
  lemma {:induction false} EvidenceRetractionSatisfiesExactly(o: Objective, rule: Rule, d: Dossier)
    ensures (exists more :: RetractsEvidence(o, d, more) && Meets(o, rule, StandingsOf(more))) <==>
            o.qualification == "QUALIFIED" &&
            exists r :: r in o.reqs && (rule.Alternatives? ==> r.id in rule.ids) && Attainable(o, rule, d, r.id)
  {
    if more :| RetractsEvidence(o, d, more) && Meets(o, rule, StandingsOf(more)) {
      var r := Achieves(o, rule, d, StandingsOf(more));
      var kept := set id | id in InForce(o, d) && !Retracted(more.nodes, id);
      AchievedIsAttainable(o, rule, d, more, kept, r);
    }
    if r :| o.qualification == "QUALIFIED" && r in o.reqs && (rule.Alternatives? ==> r.id in rule.ids) &&
            Attainable(o, rule, d, r.id) {
      AttainableIsAchieved(o, rule, d, r);
      AchievedMeets(o, rule, d, Retract(o, d, MayStay(o, rule, d, r.id)), r);
    }
  }
}
