/** One run of the planning engine: derive, resolve, check twice, compile, execute. */
module Pipeline {
  import opened Common
  import opened Substrate
  import opened Registry
  import opened Resolution
  import Obligations
  import Decomposition
  import Closure
  import opened Compiler

  // ---- Verification contracts ----

  /** The obligation an id stands for in the run's dictionary: the last one carrying it. */
  function ObligationNamed(obls: seq<Obligation>, id: string): (r: Option<Obligation>)
    ensures r.Some? ==> r.value in obls && r.value.id == id
    ensures r.None? ==> forall o :: o in obls ==> o.id != id
  {
    if obls == [] then None
    else if obls[|obls| - 1].id == id then Some(obls[|obls| - 1])
    else ObligationNamed(obls[..|obls| - 1], id)
  }

  function Get(s: Store, k: string): Value {
    if k in s then s[k] else NoneValue
  }

  predicate Accepts(outputs: seq<string>, expected: Store, s: Store) {
    && (forall k :: k in outputs ==> Get(s, k) != NoneValue)
    && (forall k :: k in expected ==> Get(s, k) == expected[k])
  }

  function ContractFor(op: Operation, obls: seq<Obligation>): Contract {
    var o := ObligationNamed(obls, op.obligation);
    var expected := if o.Some? then o.value.expected else map[];
    Contract("vc_" + op.id, if op.postconditions != [] then op.postconditions[0] else "Satisfied " + op.id,
             s => Accepts(op.outputs, expected, s), op.obligation, op.id)
  }

  function ContractsFor(ops: seq<Operation>, obls: seq<Obligation>): seq<Contract> {
    seq(|ops|, i requires 0 <= i < |ops| => ContractFor(ops[i], obls))
  }

  method BuildContracts(ops: seq<Operation>, obls: seq<Obligation>) returns (contracts: seq<Contract>)
    ensures contracts == ContractsFor(ops, obls)
  {
    contracts := [];
    for i := 0 to |ops|
      invariant |contracts| == i && forall k :: 0 <= k < i ==> contracts[k] == ContractFor(ops[k], obls)
    {
      contracts := contracts + [ContractFor(ops[i], obls)];
    }
  }

  // ---- A resolved plan against the later gates ----

  ghost function PlanOf(obls: seq<Obligation>, env: Env): Plan
    requires IsResolved(obls, env)
  {
    Resolve(obls, env, |obls|).value
  }

  /** The gates' running set of supplied names is the resolver's. */
  lemma {:induction false} SuppliedIsProvided(obls: seq<Obligation>, env: Env, n: nat)
    requires IsResolved(obls, env) && n <= |obls|
    ensures |PlanOf(obls, env).ops| == |obls|
    ensures Supplied(env.inputs, PlanOf(obls, env).ops, n) == Provided(obls, env, n)
  {
    ResolvedExactly(obls, env);
    if n > 0 {
      SuppliedIsProvided(obls, env, n - 1);
      assert Follows(PlanOf(obls, env), obls, env, n - 1);
    }
  }

  lemma {:induction false} PlanIsReached(obls: seq<Obligation>, env: Env)
    requires IsResolved(obls, env)
    ensures var ops := PlanOf(obls, env).ops; Decomposition.AllReached(ops, env.inputs, |ops|)
  {
    ResolvedExactly(obls, env);
    var ops := PlanOf(obls, env).ops;
    forall k | 0 <= k < |ops| ensures Decomposition.ReachedAt(ops, env.inputs, k) {
      SuppliedIsProvided(obls, env, k);
      assert Follows(PlanOf(obls, env), obls, env, k) && Feasible(obls, env, k);
    }
  }

  lemma {:induction false} PlanIsVerified(ops: seq<Operation>, obls: seq<Obligation>)
    ensures Decomposition.AllVerified(ops, ContractsFor(ops, obls), |ops|)
  {
    forall k | 0 <= k < |ops| ensures Decomposition.VerifiedAt(ops, ContractsFor(ops, obls), k) {
      assert Decomposition.Checks(ContractsFor(ops, obls)[k], ops[k]);
    }
  }

  /** The only thing the coverage gate can still refuse in a resolved plan is an uncovered requirement. */
  lemma {:induction false} DecompositionOnlyAsksCoverage(obls: seq<Obligation>, env: Env, reqs: seq<Requirement>)
    requires IsResolved(obls, env)
    ensures var ops := PlanOf(obls, env).ops;
            Decomposition.Complete(reqs, ops, ContractsFor(ops, obls), env.inputs) <==>
            forall req :: req in reqs ==> Decomposition.Covered(req, ops)
  {
    PlanIsReached(obls, env);
    PlanIsVerified(PlanOf(obls, env).ops, obls);
  }

  /** The obligations of a run are those of the requirements that are read, and the resolver binds them all. */
  ghost predicate Planned(d: Obligations.Derivation, reqs: seq<Requirement>, cands: seq<Obligations.Interpretation>,
                          env: Env)
  {
    d == Obligations.Derive(reqs, Obligations.Readings(cands), |reqs|) && d.deficits == [] &&
    IsResolved(d.obligations, env)
  }

  predicate Read(cands: seq<Obligations.Interpretation>, req: Requirement) {
    Obligations.ReadingOf(cands, req.id).Unique?
  }

  lemma {:induction false} PlanCoversExactly(obls: seq<Obligation>, env: Env, req: Requirement)
    requires IsResolved(obls, env)
    ensures Decomposition.Covered(req, PlanOf(obls, env).ops) <==>
            exists k :: 0 <= k < |obls| && Decomposition.Mentions(obls[k].id, req.id)
  {
    ResolvedExactly(obls, env);
    var ops := PlanOf(obls, env).ops;
    forall k | 0 <= k < |obls|
      ensures Decomposition.Covers(ops[k], req.id) <==> Decomposition.Mentions(obls[k].id, req.id)
    {
      assert Follows(PlanOf(obls, env), obls, env, k);
      Decomposition.InducedCoversExactly(ops[k], obls[k].id, req.id);
    }
  }

  lemma {:induction false} ReadAmong(
      reqs: seq<Requirement>, cands: seq<Obligations.Interpretation>, p: string -> bool)
    ensures Obligations.AnyRead(reqs, Obligations.Readings(cands), |reqs|, p) <==>
            exists other :: other in reqs && Read(cands, other) && p("obl_" + other.id)
  {
    var read := Obligations.Readings(cands);
    assert forall req :: Read(cands, req) == read(req.id).Unique?;
    if other :| other in reqs && Read(cands, other) && p("obl_" + other.id) {
      var i :| 0 <= i < |reqs| && reqs[i] == other;
      assert read(reqs[i].id).Unique?;
    }
  }

  /** A requirement is covered exactly when the operation of some requirement that is read mentions its id. */
  lemma {:induction false} CoveredExactly(
      d: Obligations.Derivation, reqs: seq<Requirement>, cands: seq<Obligations.Interpretation>, env: Env,
      req: Requirement)
    requires Planned(d, reqs, cands, env)
    ensures Decomposition.Covered(req, PlanOf(d.obligations, env).ops) <==>
            exists other :: other in reqs && Read(cands, other) && Decomposition.Mentions("obl_" + other.id, req.id)
  {
    var p := (id: string) => Decomposition.Mentions(id, req.id);
    PlanCoversExactly(d.obligations, env, req);
    assert Obligations.AnyObligation(d.obligations, p) <==>
           exists k :: 0 <= k < |d.obligations| && Decomposition.Mentions(d.obligations[k].id, req.id);
    Obligations.DerivedExactly(reqs, Obligations.Readings(cands), |reqs|, p);
    ReadAmong(reqs, cands, p);
  }

  /** Neither read nor mentioned by the operation of one that is: only a requirement that blocks nothing gets here. */
  predicate Dropped(reqs: seq<Requirement>, cands: seq<Obligations.Interpretation>, req: Requirement) {
    && !req.blocking && !Read(cands, req)
    && forall other :: other in reqs && Read(cands, other) ==> !Decomposition.Mentions("obl_" + other.id, req.id)
  }

  /** The coverage gate stops a plan without deficits exactly when some unread requirement is mentioned nowhere. */
  lemma {:induction false} GateStopsExactly(
      d: Obligations.Derivation, reqs: seq<Requirement>, cands: seq<Obligations.Interpretation>, env: Env)
    requires Planned(d, reqs, cands, env)
    ensures var ops := PlanOf(d.obligations, env).ops;
            !Decomposition.Complete(reqs, ops, ContractsFor(ops, d.obligations), env.inputs) <==>
            exists req :: req in reqs && Dropped(reqs, cands, req)
  {
    var ops := PlanOf(d.obligations, env).ops;
    DecompositionOnlyAsksCoverage(d.obligations, env, reqs);
    Obligations.NoDeficitExactly(reqs, Obligations.Readings(cands), |reqs|);
    forall req | req in reqs ensures !Decomposition.Covered(req, ops) <==> Dropped(reqs, cands, req) {
      CoveredExactly(d, reqs, cands, env, req);
      Decomposition.MentionsItself(req.id);
      var k :| 0 <= k < |reqs| && reqs[k] == req;
      assert reqs[k].blocking ==> Read(cands, req);
    }
  }

  /** With every requirement blocking, a plan without deficits covers them all. */
  lemma {:induction false} BlockingRequirementsAreCovered(
      d: Obligations.Derivation, reqs: seq<Requirement>, cands: seq<Obligations.Interpretation>, env: Env)
    requires Planned(d, reqs, cands, env) && forall k :: 0 <= k < |reqs| ==> reqs[k].blocking
    ensures forall req :: req in reqs ==> Decomposition.Covered(req, PlanOf(d.obligations, env).ops)
  {
    GateStopsExactly(d, reqs, cands, env);
    DecompositionOnlyAsksCoverage(d.obligations, env, reqs);
  }

  /** The ids a run gives its requirements: a prefix and a number. */
  predicate Numbered(reqs: seq<Requirement>, number: seq<string>) {
    |number| == |reqs| && forall k :: 0 <= k < |reqs| ==> reqs[k].id == "req_" + number[k] && 'r' !in number[k]
  }

  lemma {:induction false} MentionsNumber(a: string, b: string)
    requires 'r' !in b
    ensures Decomposition.Mentions("obl_" + ("req_" + b), "req_" + a) <==> a <= b
  {
    Decomposition.ContainsNumber("op_obl_", a, b);
    Decomposition.ContainsNumber("Satisfied obl_", a, b);
    assert "op_" + ("obl_" + ("req_" + b)) == "op_obl_" + ("req_" + b);
    assert "Satisfied " + ("obl_" + ("req_" + b)) == "Satisfied obl_" + ("req_" + b);
  }

  /** Numbered requirements: one is covered exactly when its number begins the number of one that is read. */
  lemma {:induction false} NumberedCoveredExactly(
      d: Obligations.Derivation, reqs: seq<Requirement>, cands: seq<Obligations.Interpretation>, env: Env,
      number: seq<string>, i: nat)
    requires Planned(d, reqs, cands, env) && Numbered(reqs, number) && i < |reqs|
    ensures Decomposition.Covered(reqs[i], PlanOf(d.obligations, env).ops) <==>
            exists k :: 0 <= k < |reqs| && Read(cands, reqs[k]) && number[i] <= number[k]
  {
    CoveredExactly(d, reqs, cands, env, reqs[i]);
    forall k | 0 <= k < |reqs|
      ensures Decomposition.Mentions("obl_" + reqs[k].id, reqs[i].id) <==> number[i] <= number[k]
    {
      MentionsNumber(number[i], number[k]);
    }
    if k :| 0 <= k < |reqs| && Read(cands, reqs[k]) && number[i] <= number[k] { assert reqs[k] in reqs; }
  }

  ghost predicate NamedBindings(ops: seq<Operation>) {
    forall k :: 0 <= k < |ops| ==> ops[k].capability != ""
  }

  /** The closure gate can refuse nothing in a resolved plan but a capability registered under the empty id. */
  lemma {:induction false} ClosureOnlyAsksForIds(obls: seq<Obligation>, env: Env, caps: seq<Capability>)
    requires DistinctCapabilities(caps) && env.select == Offer(caps) && IsResolved(obls, env)
    ensures Closure.Report(PlanOf(obls, env).ops, caps, env.pool, obls).closed <==>
            NamedBindings(PlanOf(obls, env).ops)
  {
    ResolvedExactly(obls, env);
    var ops := PlanOf(obls, env).ops;
    Closure.ClosedExactly(ops, caps, env.pool, obls);
    forall k | 0 <= k < |ops|
      ensures obls[k].HasClosureAuthority()
      ensures Closure.LegitimateAt(ops, caps, env.pool, k) <==> ops[k].capability != ""
    {
      LegitimateIfNamed(obls, env, caps, k);
    }
  }

  lemma {:induction false} LegitimateIfNamed(obls: seq<Obligation>, env: Env, caps: seq<Capability>, k: nat)
    requires DistinctCapabilities(caps) && env.select == Offer(caps) && IsResolved(obls, env) && k < |obls|
    ensures |PlanOf(obls, env).ops| == |obls| && obls[k].HasClosureAuthority()
    ensures Closure.LegitimateAt(PlanOf(obls, env).ops, caps, env.pool, k) <==>
            PlanOf(obls, env).ops[k].capability != ""
  {
    ResolvedExactly(obls, env);
    assert Follows(PlanOf(obls, env), obls, env, k) && Feasible(obls, env, k);
    LookupMember(caps, env.select(obls[k]).value);
  }

  /** A closed plan can be sealed: after the two gates the compiler has nothing left to refuse. */
  lemma {:induction false} ClosedPlansCompile(
      ops: seq<Operation>, caps: seq<Capability>, pool: Pool, obls: seq<Obligation>, bindings: seq<Binding>)
    requires Closure.Report(ops, caps, pool, obls).closed
    ensures forall k :: 0 <= k < |ops| ==>
              Sealable(ops[k], bindings, caps) && SealedBinding(ops[k], bindings) == ops[k].capability
  {
    Closure.ClosedExactly(ops, caps, pool, obls);
    forall k | 0 <= k < |ops|
      ensures Sealable(ops[k], bindings, caps) && SealedBinding(ops[k], bindings) == ops[k].capability
    {
      assert Closure.LegitimateAt(ops, caps, pool, k);
    }
  }

  // ---- Running a resolved plan ----

  ghost function GraphOf(obls: seq<Obligation>, env: Env): Graph
    requires IsResolved(obls, env)
  {
    var p := PlanOf(obls, env);
    Graph(p.ops, SealedBindings(p.ops, p.bindings, |p.ops|), ContractsFor(p.ops, obls))
  }

  /** Every operation of the graph runs with the capability selected for its obligation. */
  lemma {:induction false} RunsItsSelection(obls: seq<Obligation>, env: Env, caps: seq<Capability>, k: nat)
    requires DistinctCapabilities(caps) && env.select == Offer(caps) && IsResolved(obls, env)
    requires NamedBindings(PlanOf(obls, env).ops) && k < |obls|
    ensures |PlanOf(obls, env).ops| == |obls|
    ensures Runnable(caps, GraphOf(obls, env), PlanOf(obls, env).ops[k]) == env.select(obls[k])
  {
    ResolvedExactly(obls, env);
    var p := PlanOf(obls, env);
    forall i, j | 0 <= i < j < |p.ops| ensures p.ops[i].id != p.ops[j].id {
      assert Follows(p, obls, env, i) && Follows(p, obls, env, j);
      assert ("op_" + obls[i].id)[3..] == obls[i].id && ("op_" + obls[j].id)[3..] == obls[j].id;
    }
    EachKeepsItsBinding(p.ops, p.bindings, |p.ops|);
    assert Follows(p, obls, env, k);
    LookupMember(caps, env.select(obls[k]).value);
  }

  /** Each operation starts with all its declared inputs, provided earlier adapters return what they declare. */
  lemma {:induction false} InputsArePresent(obls: seq<Obligation>, env: Env, caps: seq<Capability>, s: Store, n: nat)
    requires env.inputs == s.Keys && IsResolved(obls, env) && n < |PlanOf(obls, env).ops|
    requires RunOps(caps, GraphOf(obls, env), s, n).Ok?
    requires forall k {:trigger ReturnsDeclared(caps, GraphOf(obls, env), s, k)} ::
               0 <= k < n ==> ReturnsDeclared(caps, GraphOf(obls, env), s, k)
    ensures forall inp :: inp in PlanOf(obls, env).ops[n].inputs ==> inp in RunOps(caps, GraphOf(obls, env), s, n).value
  {
    PlanIsReached(obls, env);
    var ops := PlanOf(obls, env).ops;
    assert Decomposition.ReachedAt(ops, env.inputs, n);
    ResolvedExactly(obls, env);
    assert Follows(PlanOf(obls, env), obls, env, n);
    SuppliedIsStored(caps, GraphOf(obls, env), s, n);
  }

  /** The executor's own authorisation check never fails on a resolved plan. */
  lemma {:induction false} NeverUnauthorized(obls: seq<Obligation>, env: Env, caps: seq<Capability>, s: Store)
    requires DistinctCapabilities(caps) && env.select == Offer(caps) && IsResolved(obls, env)
    requires NamedBindings(PlanOf(obls, env).ops)
    ensures var r := Execute(caps, GraphOf(obls, env), s); r.Failure? ==> !r.failure.CapabilityUnauthorized?
  {
    var g := GraphOf(obls, env);
    forall k | 0 <= k < |g.ops| ensures Runnable(caps, g, g.ops[k]).Some? {
      PlanIsSelected(obls, env, k);
      RunsItsSelection(obls, env, caps, k);
    }
    RunnableGraphsFailInside(caps, g, s, |g.ops|);
  }

  lemma {:induction false} PlanIsSelected(obls: seq<Obligation>, env: Env, k: nat)
    requires IsResolved(obls, env)
    ensures |PlanOf(obls, env).ops| == |obls|
    ensures k < |obls| ==> env.select(obls[k]).Some?
  {
    ResolvedExactly(obls, env);
    if k < |obls| { assert Follows(PlanOf(obls, env), obls, env, k); }
  }

  /** Success: every declared output is in the final state and not None, every expected value is met. */
  lemma {:induction false} SuccessDeliversOutputs(obls: seq<Obligation>, env: Env, caps: seq<Capability>, s: Store)
    requires IsResolved(obls, env)
    requires Execute(caps, GraphOf(obls, env), s).Success?
    ensures |PlanOf(obls, env).ops| == |obls|
    ensures var final, ops := Execute(caps, GraphOf(obls, env), s).final, PlanOf(obls, env).ops;
            && s.Keys <= final.Keys
            && (forall k, out :: 0 <= k < |ops| && out in ops[k].outputs ==> out in final && final[out] != NoneValue)
            && (forall k, key :: 0 <= k < |obls| && key in obls[k].expected ==>
                    Get(final, key) == obls[k].expected[key])
  {
    ResolvedExactly(obls, env);
    var g, p := GraphOf(obls, env), PlanOf(obls, env);
    StoreKeysGrow(caps, g, s, 0, |g.ops|);
    var final := Execute(caps, g, s).final;
    forall k | 0 <= k < |p.ops| ensures Accepts(p.ops[k].outputs, obls[k].expected, final) {
      assert Follows(p, obls, env, k);
      assert g.gates[k] == ContractFor(p.ops[k], obls) && g.gates[k] in g.gates;
      assert g.gates[k].validator(final);
      OnlyObligationNamed(obls, k);
    }
  }

  /** In a resolved plan every operation is checked by its own contract and no other, against its own obligation. */
  lemma {:induction false} ContractsAreOneToOne(obls: seq<Obligation>, env: Env, k: nat, j: nat, s: Store)
    requires IsResolved(obls, env) && k < |obls| && j < |obls|
    ensures |PlanOf(obls, env).ops| == |obls|
    ensures var ops := PlanOf(obls, env).ops;
            var contracts := ContractsFor(ops, obls);
            && (Decomposition.Checks(contracts[j], ops[k]) <==> j == k)
            && (contracts[k].validator(s) <==> Accepts(ops[k].outputs, obls[k].expected, s))
  {
    ResolvedExactly(obls, env);
    assert Follows(PlanOf(obls, env), obls, env, k) && Follows(PlanOf(obls, env), obls, env, j);
    OnlyObligationNamed(obls, k);
    SameIdsOnly(obls, j, k);
  }

  lemma {:induction false} SameIdsOnly(obls: seq<Obligation>, j: nat, k: nat)
    requires DistinctObligations(obls) && j < |obls| && k < |obls|
    ensures "op_" + obls[j].id == "op_" + obls[k].id <==> j == k
    ensures "Satisfied " + obls[j].id == "Satisfied " + obls[k].id <==> j == k
    ensures obls[j].id == obls[k].id <==> j == k
  {
    assert j < k || j == k || k < j;
    assert ("op_" + obls[j].id)[3..] == obls[j].id && ("op_" + obls[k].id)[3..] == obls[k].id;
    assert ("Satisfied " + obls[j].id)[10..] == obls[j].id && ("Satisfied " + obls[k].id)[10..] == obls[k].id;
  }

  /** What an interpretation promises is there: its outputs, not None, and the values it expects. */
  ghost predicate Delivered(c: Obligations.Interpretation, final: Store) {
    && (forall out :: out in c.contract.outputs ==> out in final && final[out] != NoneValue)
    && (forall key :: key in c.contract.expected ==> Get(final, key) == c.contract.expected[key])
  }

  lemma {:induction false} BoundSuppliesOutputs(obls: seq<Obligation>, env: Env, caps: seq<Capability>, k: nat)
    requires env.select == Offer(caps) && IsResolved(obls, env) && k < |obls|
    ensures |PlanOf(obls, env).ops| == |obls|
    ensures forall out :: out in obls[k].outputs ==> out in PlanOf(obls, env).ops[k].outputs
  {
    ResolvedExactly(obls, env);
    assert Follows(PlanOf(obls, env), obls, env, k);
    assert env.select(obls[k]) == Selected(obls[k], caps);
  }

  lemma {:induction false} SuccessDeliversObligation(
      obls: seq<Obligation>, env: Env, caps: seq<Capability>, s: Store, k: nat)
    requires env.select == Offer(caps) && IsResolved(obls, env) && k < |obls|
    requires Execute(caps, GraphOf(obls, env), s).Success?
    ensures var final := Execute(caps, GraphOf(obls, env), s).final;
            && (forall out :: out in obls[k].outputs ==> out in final && final[out] != NoneValue)
            && (forall key :: key in obls[k].expected ==> Get(final, key) == obls[k].expected[key])
  {
    BoundSuppliesOutputs(obls, env, caps, k);
    SuccessDeliversOutputs(obls, env, caps, s);
  }

  /** Success: whatever the one interpretation of a requirement promises is in the final state. */
  lemma {:induction false} SuccessDeliversReadings(
      d: Obligations.Derivation, reqs: seq<Requirement>, cands: seq<Obligations.Interpretation>, env: Env,
      caps: seq<Capability>, s: Store, req: Requirement, c: Obligations.Interpretation)
    requires Planned(d, reqs, cands, env) && env.select == Offer(caps)
    requires Execute(caps, GraphOf(d.obligations, env), s).Success?
    requires req in reqs && Obligations.Sole(cands, req, c)
    ensures Delivered(c, Execute(caps, GraphOf(d.obligations, env), s).final)
  {
    var k := Obligations.RenderedObligation(reqs, cands, req, c);
    SuccessDeliversObligation(d.obligations, env, caps, s, k);
  }

  lemma {:induction false} OnlyObligationNamed(obls: seq<Obligation>, k: nat)
    requires DistinctObligations(obls) && k < |obls|
    ensures ObligationNamed(obls, obls[k].id) == Some(obls[k])
  {
    var r := ObligationNamed(obls, obls[k].id);
    assert obls[k] in obls;
    var j :| 0 <= j < |obls| && obls[j] == r.value;
    assert j < k || j == k || k < j;
  }

  lemma {:induction false} DeliversAll(
      d: Obligations.Derivation, reqs: seq<Requirement>, cands: seq<Obligations.Interpretation>, env: Env,
      caps: seq<Capability>, s: Store)
    requires Planned(d, reqs, cands, env) && env.select == Offer(caps)
    ensures var result := Execute(caps, GraphOf(d.obligations, env), s);
            result.Success? ==>
              forall req, c :: req in reqs && Obligations.Sole(cands, req, c) ==> Delivered(c, result.final)
  {
    var result := Execute(caps, GraphOf(d.obligations, env), s);
    if result.Success? {
      forall req, c | req in reqs && Obligations.Sole(cands, req, c) ensures Delivered(c, result.final) {
        SuccessDeliversReadings(d, reqs, cands, env, caps, s, req, c);
      }
    }
  }

  // ---- The run ----

  datatype Outcome =
    | ObjectiveInadequate
    | ResolutionDeficit(kind: Option<DeficitKind>)
    | ResolverRaised
    | DecompositionInsufficient
    | ClosureDeficit
    | CompilerRaised(error: CompileError)
    | Executed(result: ExecutionResult)

  class ForgeEngine {
    const registry: CapabilityRegistry
    const resolver: GroundedSatisfactionResolver
    const closureGate: Closure.ClosureGate
    const compiler: ExecutionGraphCompiler

    ghost predicate Valid()
      reads registry
    {
      registry.Valid() && resolver.registry == registry && closureGate.registry == registry
          && compiler.registry == registry
    }

    constructor (registry: CapabilityRegistry)
      requires registry.Valid()
      ensures Valid() && this.registry == registry
    {
      this.registry := registry;
      resolver := new GroundedSatisfactionResolver(registry);
      closureGate := new Closure.ClosureGate(registry);
      compiler := new ExecutionGraphCompiler(registry);
    }

    /** What resolution sees in a run: the environment's keys, no evidence, the default authority. */
    ghost function RunEnv(payload: Store): Env
      reads registry
    {
      Env(Offer(registry.caps), payload.Keys, map[], DEFAULT_AUTHORITY)
    }

    method Run(adequate: bool, reqs: seq<Requirement>, cands: seq<Obligations.Interpretation>, payload: Store)
        returns (outcome: Outcome)
      requires Valid()
      ensures !adequate <==> outcome == Outcome.ObjectiveInadequate
      ensures
        var d := Obligations.Derive(reqs, Obligations.Readings(cands), |reqs|);
        adequate ==>
          if d.deficits != [] then outcome == ResolutionDeficit(Some(d.deficits[0].kind))
          else if Resolve(d.obligations, RunEnv(payload), |d.obligations|).Err? then outcome == ResolverRaised
          else if !IsResolved(d.obligations, RunEnv(payload)) then
            var deficits := Resolve(d.obligations, RunEnv(payload), |d.obligations|).value.deficits;
            outcome == ResolutionDeficit(if deficits != [] then Some(deficits[0].kind) else None)
          else
            var ops := PlanOf(d.obligations, RunEnv(payload)).ops;
            if exists req :: req in reqs && Dropped(reqs, cands, req)
            then outcome == DecompositionInsufficient
            else if !NamedBindings(ops) then outcome == Outcome.ClosureDeficit
            else outcome == Executed(Execute(registry.caps, GraphOf(d.obligations, RunEnv(payload)), payload))
      ensures (forall k :: 0 <= k < |reqs| ==> reqs[k].blocking) ==> outcome != DecompositionInsufficient
      ensures !outcome.CompilerRaised?
      ensures outcome.Executed? && outcome.result.Success? ==>
                forall req, c :: req in reqs && Obligations.Sole(cands, req, c) ==> Delivered(c, outcome.result.final)
    {
      if !adequate { return Outcome.ObjectiveInadequate; }
      var obls, semantic := Obligations.DeriveObligations(reqs, cands);
      if semantic != [] { return ResolutionDeficit(Some(semantic[0].kind)); }

      var resolution := resolver.ResolveObligations(obls, payload.Keys, map[], None);
      if resolution.Err? { return ResolverRaised; }
      var proof := resolution.value;
      if !proof.resolved {
        return ResolutionDeficit(if proof.deficits != [] then Some(proof.deficits[0].kind) else None);
      }
      outcome := RunPlan(obls, proof, reqs, cands, payload);
    }

    /** The gates, the compiler and the executor, once everything is resolved. */
    method RunPlan(
        obls: seq<Obligation>, proof: ResolutionProof, reqs: seq<Requirement>,
        ghost cands: seq<Obligations.Interpretation>, payload: Store) returns (outcome: Outcome)
      requires Valid() && Planned(Obligations.Derivation(obls, []), reqs, cands, RunEnv(payload))
      requires proof.ops == PlanOf(obls, RunEnv(payload)).ops
               && proof.bindings == PlanOf(obls, RunEnv(payload)).bindings
      ensures if exists req :: req in reqs && Dropped(reqs, cands, req) then outcome == DecompositionInsufficient
              else if !NamedBindings(PlanOf(obls, RunEnv(payload)).ops) then outcome == Outcome.ClosureDeficit
              else outcome == Executed(Execute(registry.caps, GraphOf(obls, RunEnv(payload)), payload))
      ensures outcome.Executed? && outcome.result.Success? ==>
                forall req, c :: req in reqs && Obligations.Sole(cands, req, c) ==> Delivered(c, outcome.result.final)
    {
      ghost var env := RunEnv(payload);
      var contracts := BuildContracts(proof.ops, obls);
      var decomposition := Decomposition.EvaluateDecomposition(reqs, proof.ops, contracts, payload.Keys);
      GateStopsExactly(Obligations.Derivation(obls, []), reqs, cands, env);
      if !decomposition.status.Satisfied? { return DecompositionInsufficient; }

      var closure := closureGate.EvaluateClosure(proof.ops, map[], obls);
      ClosureOnlyAsksForIds(obls, env, registry.caps);
      if !closure.closed { return Outcome.ClosureDeficit; }

      ClosedPlansCompile(proof.ops, registry.caps, map[], obls, proof.bindings);
      var graph := compiler.Compile(true, decomposition, Some(closure), proof.ops, contracts, proof.bindings);
      match graph
      case Err(error) => outcome := CompilerRaised(error);
      case Ok(g) =>
        var result := compiler.ExecuteGraph(g, payload);
        DeliversAll(Obligations.Derivation(obls, []), reqs, cands, env, registry.caps, payload);
        outcome := Executed(result);
    }
  }
}
