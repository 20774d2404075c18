/** The satisfaction resolver: obligations in, capability bindings and induced operations out. */
module Resolution {
  import opened Common
  import opened Substrate
  import opened Registry

  datatype DeficitKind =
    | SemanticBindingDeficit | AmbiguousDeficit | RepresentationDeficit
    | CapabilityDeficit | InputDeficit | EvidenceDeficit | AuthorityDeficit

  datatype Deficit = Deficit(kind: DeficitKind, obligation: string)

  datatype Binding = Binding(obligation: string, capability: string)

  /** Everything one resolution reads besides the obligations; `select` is the registry's answer. */
  datatype Env = Env(select: Obligation -> Option<Capability>, inputs: set<string>, pool: Pool, authority: set<string>)

  const DEFAULT_AUTHORITY: set<string> := {"SANDBOX_FILE_WRITE", "SUBPROCESS_EXECUTE", "LOCAL_IO"}

  /** The bindings dictionary in insertion order: a known key keeps its place. */
  function Insert(bindings: seq<Binding>, b: Binding): (r: seq<Binding>)
    ensures |bindings| <= |r| <= |bindings| + 1
  {
    if bindings == [] then [b]
    else if bindings[0].obligation == b.obligation then [b] + bindings[1..]
    else [bindings[0]] + Insert(bindings[1..], b)
  }

  predicate Binds(bindings: seq<Binding>, id: string) {
    exists i :: 0 <= i < |bindings| && bindings[i].obligation == id
  }

  lemma {:induction false} InsertAppendsNewKeys(bindings: seq<Binding>, b: Binding)
    ensures !Binds(bindings, b.obligation) ==> Insert(bindings, b) == bindings + [b]
    ensures Binds(bindings, b.obligation) ==> |Insert(bindings, b)| == |bindings|
    ensures forall id :: Binds(Insert(bindings, b), id) <==> Binds(bindings, id) || id == b.obligation
  {
    if bindings == [] {
      BindsSplit(b, []);
    } else {
      var rest := bindings[1..];
      assert bindings == [bindings[0]] + rest;
      if bindings[0].obligation != b.obligation {
        InsertAppendsNewKeys(rest, b);
        BindsSplit(bindings[0], rest);
        BindsSplit(bindings[0], Insert(rest, b));
      } else {
        BindsSplit(bindings[0], rest);
        BindsSplit(b, rest);
      }
    }
  }

  lemma {:induction false} BindsSplit(head: Binding, rest: seq<Binding>)
    ensures forall id :: Binds([head] + rest, id) <==> head.obligation == id || Binds(rest, id)
  {
    var all := [head] + rest;
    assert all[0] == head;
    forall id | Binds(rest, id) ensures Binds(all, id) {
      var i :| 0 <= i < |rest| && rest[i].obligation == id;
      assert all[i + 1] == rest[i];
    }
    forall id | Binds(all, id) && head.obligation != id ensures Binds(rest, id) {
      var i :| 0 <= i < |all| && all[i].obligation == id;
      assert rest[i - 1] == all[i];
    }
  }

  // ---- Judging one obligation ----

  predicate Representable(effect: string) {
    effect != "UNKNOWN_REPRESENTATION" && effect != "UNREPRESENTABLE_EFFECT"
  }

  /** The capability the registry proposes; it depends on nothing but the registry and the obligation. */
  ghost function Selected(o: Obligation, caps: seq<Capability>): (r: Option<Capability>)
    ensures r.Some? ==> r.value in caps && r.value.Authorized() && SuppliesOutputs(r.value, o)
  {
    var found := Candidates(caps, o);
    if found == [] then None else Some(SelectBest(found, o.effect))
  }

  /** Something is proposed exactly when somebody serves and keeps within what is asked or names the effect. */
  lemma {:induction false} ProposesExactly(o: Obligation, caps: seq<Capability>)
    ensures Selected(o, caps).Some? <==>
            exists c :: Serves(caps, o, c) && (KeepsWithin(o, c) || (o.effect != "" && NamesEffect(o, c)))
    ensures Selected(o, caps).Some? ==> Selected(o, caps).value in Candidates(caps, o)
  {
    var found := Candidates(caps, o);
    forall c { CandidatesInFields(caps, o, c); }
    if found != [] { assert found[0] in found; }
  }

  ghost function Offer(caps: seq<Capability>): Obligation -> Option<Capability> {
    o => Selected(o, caps)
  }

  predicate EvidenceGrounded(o: Obligation, cap: Capability, pool: Pool) {
    && (forall need :: need in o.evidence ==> Grounded(need, pool))
    && (forall e :: e in cap.evidence ==> Grounded(EvidenceNeed(e, "VERIFIED_FACT"), pool))
  }

  datatype Verdict = Bind(cap: Capability) | Deficient(kind: DeficitKind)

  ghost function Judge(o: Obligation, env: Env, produced: set<string>): Verdict {
    if !o.HasClosureAuthority() then Deficient(SemanticBindingDeficit)
    else if !Representable(o.effect) then Deficient(RepresentationDeficit)
    else match env.select(o)
      case None => Deficient(CapabilityDeficit)
      case Some(cap) =>
        if !AllIn(cap.inputs, produced) then Deficient(InputDeficit)
        else if !EvidenceGrounded(o, cap, env.pool) then Deficient(EvidenceDeficit)
        else if !AllIn(cap.authority, env.authority) then Deficient(AuthorityDeficit)
        else Bind(cap)
  }

  /** How far a judgement got: each check is only reached when those before it pass. */
  function Progress(v: Verdict): nat {
    match v
    case Bind(_) => 6
    case Deficient(SemanticBindingDeficit) => 0
    case Deficient(AmbiguousDeficit) => 0
    case Deficient(RepresentationDeficit) => 1
    case Deficient(CapabilityDeficit) => 2
    case Deficient(InputDeficit) => 3
    case Deficient(EvidenceDeficit) => 4
    case Deficient(AuthorityDeficit) => 5
  }

  /** With more at hand a judgement gets at least as far, and a binding stays the same. */
  lemma {:induction false} JudgementOnlyAdvances(
      o: Obligation, env: Env, produced: set<string>, more: Env, produced': set<string>)
    requires Enlarges(env, more) && produced <= produced'
    ensures Progress(Judge(o, env, produced)) <= Progress(Judge(o, more, produced'))
    ensures Judge(o, env, produced).Bind? ==> Judge(o, more, produced') == Judge(o, env, produced)
  {
    assert forall need: EvidenceNeed :: Grounded(need, env.pool) ==> Grounded(need, more.pool);
  }

  /**
   A capability is bound only to an obligation it is entitled to serve, and no candidate is ranked above it. Where
   somebody who serves keeps within what is asked, so does it.
   */
  lemma {:induction false} BoundIsEntitled(o: Obligation, env: Env, caps: seq<Capability>, produced: set<string>)
    requires env.select == Offer(caps) && Judge(o, env, produced).Bind?
    ensures var cap := Judge(o, env, produced).cap;
            && cap in Candidates(caps, o) && cap.Authorized() && SuppliesOutputs(cap, o)
            && AllIn(cap.inputs, produced) && AllIn(cap.authority, env.authority) && EvidenceGrounded(o, cap, env.pool)
            && (forall c :: c in Candidates(caps, o) ==> !Below(cap, c, o.effect))
            && Serves(caps, o, cap)
            && ((exists c :: Serves(caps, o, c) && KeepsWithin(o, c)) ==> KeepsWithin(o, cap))
  {
    assert env.select(o) == Selected(o, caps);
    var found := Candidates(caps, o);
    CandidatesInFields(caps, o, Judge(o, env, produced).cap);
    forall c | c in found ensures !Below(SelectBest(found, o.effect), c, o.effect) {
      var k: nat :| k < |found| && found[k] == c;
      SelectedIsMaximum(found, o.effect, k);
    }
  }

  function Induce(o: Obligation, cap: Capability): Operation
    requires cap.operators != []
  {
    Operation("op_" + o.id, cap.operators[0], cap.inputs, cap.outputs, ["Satisfied " + o.id], [],
              o.evidence, cap.id, o.id)
  }

  // ---- The loop over all obligations ----

  datatype Plan = Plan(bindings: seq<Binding>, ops: seq<Operation>, deficits: seq<Deficit>, produced: set<string>) {
    predicate Resolves(count: nat) { deficits == [] && |bindings| == count }
  }

  /** Indexing an empty operator list ends the whole resolution. */
  datatype Crash = IndexError

  ghost function Step(p: Plan, o: Obligation, env: Env): Result<Plan, Crash> {
    match Judge(o, env, p.produced)
    case Deficient(kind) => Ok(p.(deficits := p.deficits + [Deficit(kind, o.id)]))
    case Bind(cap) =>
      if cap.operators == [] then Err(IndexError)
      else Ok(Plan(Insert(p.bindings, Binding(o.id, cap.id)), p.ops + [Induce(o, cap)], p.deficits,
                   p.produced + KeySet(cap.outputs)))
  }

  ghost function Resolve(obls: seq<Obligation>, env: Env, n: nat): Result<Plan, Crash>
    requires n <= |obls|
  {
    if n == 0 then Ok(Plan([], [], [], env.inputs))
    else match Resolve(obls, env, n - 1)
      case Err(e) => Err(e)
      case Ok(p) => Step(p, obls[n - 1], env)
  }

  // ---- When a resolution succeeds, and with which plan ----

  ghost function OutputsOf(o: Obligation, env: Env): set<string> {
    var cap := env.select(o);
    if cap.Some? then KeySet(cap.value.outputs) else {}
  }

  /** Inputs on hand before obligation n, if every earlier one is given its selected capability. */
  ghost function Provided(obls: seq<Obligation>, env: Env, n: nat): set<string>
    requires n <= |obls|
  {
    if n == 0 then env.inputs else Provided(obls, env, n - 1) + OutputsOf(obls[n - 1], env)
  }

  /** An obligation gets its capability: authority, evidence, and inputs on hand. */
  ghost predicate Fits(o: Obligation, env: Env, produced: set<string>) {
    var cap := env.select(o);
    && o.HasClosureAuthority() && Representable(o.effect)
    && cap.Some? && cap.value.operators != []
    && AllIn(cap.value.inputs, produced)
    && EvidenceGrounded(o, cap.value, env.pool)
    && AllIn(cap.value.authority, env.authority)
  }

  ghost predicate Feasible(obls: seq<Obligation>, env: Env, k: nat)
    requires k < |obls|
  {
    Fits(obls[k], env, Provided(obls, env, k))
  }

  ghost predicate DistinctObligations(obls: seq<Obligation>) {
    forall i, j :: 0 <= i < j < |obls| ==> obls[i].id != obls[j].id
  }

  /** Operation k and binding k of a plan are those of obligation k's selected capability. */
  ghost predicate Follows(p: Plan, obls: seq<Obligation>, env: Env, k: nat)
    requires k < |p.ops| && k < |obls| && k < |p.bindings|
  {
    var cap := env.select(obls[k]);
    cap.Some? && cap.value.operators != [] && p.ops[k] == Induce(obls[k], cap.value)
    && p.bindings[k] == Binding(obls[k].id, cap.value.id)
  }

  ghost predicate AllFeasible(obls: seq<Obligation>, env: Env, n: nat)
    requires n <= |obls|
  {
    forall k {:trigger Feasible(obls, env, k)} :: 0 <= k < n ==> Feasible(obls, env, k)
  }

  lemma {:induction false} StepExactly(p: Plan, o: Obligation, env: Env)
    ensures (Step(p, o, env).Ok? && Step(p, o, env).value.deficits == []) <==>
            p.deficits == [] && Fits(o, env, p.produced)
    ensures Fits(o, env, p.produced) ==> Step(p, o, env).value.produced == p.produced + OutputsOf(o, env)
  {
  }

  lemma {:induction false} FaultlessExactly(obls: seq<Obligation>, env: Env, n: nat)
    requires n <= |obls|
    ensures (Resolve(obls, env, n).Ok? && Resolve(obls, env, n).value.deficits == []) <==> AllFeasible(obls, env, n)
    ensures AllFeasible(obls, env, n) ==> Resolve(obls, env, n).value.produced == Provided(obls, env, n)
  {
    if n > 0 {
      FaultlessExactly(obls, env, n - 1);
      assert AllFeasible(obls, env, n) <==> AllFeasible(obls, env, n - 1) && Feasible(obls, env, n - 1);
      var r := Resolve(obls, env, n - 1);
      if r.Ok? { StepExactly(r.value, obls[n - 1], env); }
    }
  }

  ghost predicate Listed(obls: seq<Obligation>, n: nat, id: string)
    requires n <= |obls|
  {
    exists k :: 0 <= k < n && obls[k].id == id
  }

  lemma {:induction false} ListedStep(obls: seq<Obligation>, n: nat)
    requires 0 < n <= |obls|
    ensures forall id :: Listed(obls, n, id) <==> Listed(obls, n - 1, id) || id == obls[n - 1].id
    ensures DistinctObligations(obls[..n]) <==>
            DistinctObligations(obls[..n - 1]) && !Listed(obls, n - 1, obls[n - 1].id)
  {
    var all, init := obls[..n], obls[..n - 1];
    assert forall k :: 0 <= k < n ==> all[k] == obls[k];
    assert forall k :: 0 <= k < n - 1 ==> init[k] == obls[k];
  }

  lemma {:induction false} BindStep(p: Plan, o: Obligation, env: Env)
    requires Fits(o, env, p.produced)
    ensures Step(p, o, env).Ok?
    ensures var after := Step(p, o, env).value.bindings;
            && (forall id :: Binds(after, id) <==> Binds(p.bindings, id) || id == o.id)
            && (if Binds(p.bindings, o.id) then |after| == |p.bindings|
                else after == p.bindings + [Binding(o.id, env.select(o).value.id)])
  {
    InsertAppendsNewKeys(p.bindings, Binding(o.id, env.select(o).value.id));
  }

  lemma {:induction false} BindingsKeepKeys(obls: seq<Obligation>, env: Env, n: nat)
    requires n <= |obls| && AllFeasible(obls, env, n)
    ensures Resolve(obls, env, n).Ok? && |Resolve(obls, env, n).value.bindings| <= n
    ensures forall id :: Binds(Resolve(obls, env, n).value.bindings, id) <==> Listed(obls, n, id)
    ensures |Resolve(obls, env, n).value.bindings| == n <==> DistinctObligations(obls[..n])
  {
    if n > 0 {
      FaultlessExactly(obls, env, n - 1);
      assert Feasible(obls, env, n - 1);
      BindingsKeepKeys(obls, env, n - 1);
      BindStep(Resolve(obls, env, n - 1).value, obls[n - 1], env);
      ListedStep(obls, n);
    }
  }

  lemma {:induction false} PlanFollows(obls: seq<Obligation>, env: Env, n: nat)
    requires n <= |obls| && AllFeasible(obls, env, n) && DistinctObligations(obls[..n])
    ensures Resolve(obls, env, n).Ok?
    ensures var p := Resolve(obls, env, n).value;
            |p.ops| == n && |p.bindings| == n && forall k :: 0 <= k < n ==> Follows(p, obls, env, k)
  {
    if n > 0 {
      FaultlessExactly(obls, env, n - 1);
      assert Feasible(obls, env, n - 1);
      ListedStep(obls, n);
      PlanFollows(obls, env, n - 1);
      BindingsKeepKeys(obls, env, n - 1);
      var p := Resolve(obls, env, n - 1).value;
      BindStep(p, obls[n - 1], env);
      forall k | 0 <= k < n - 1 ensures Follows(Resolve(obls, env, n).value, obls, env, k) {
        assert Follows(p, obls, env, k);
      }
    }
  }

  ghost predicate IsResolved(obls: seq<Obligation>, env: Env) {
    var r := Resolve(obls, env, |obls|);
    r.Ok? && r.value.Resolves(|obls|)
  }

  /** A resolution succeeds exactly when every obligation is feasible in list order and no id repeats. */
  lemma {:induction false} ResolvedExactly(obls: seq<Obligation>, env: Env)
    ensures IsResolved(obls, env) <==> AllFeasible(obls, env, |obls|) && DistinctObligations(obls)
    ensures IsResolved(obls, env) ==>
              var p := Resolve(obls, env, |obls|).value;
              |p.ops| == |obls| && |p.bindings| == |obls|
              && (forall k :: 0 <= k < |obls| ==> Follows(p, obls, env, k))
  {
    assert obls[..|obls|] == obls;
    FaultlessExactly(obls, env, |obls|);
    if AllFeasible(obls, env, |obls|) {
      BindingsKeepKeys(obls, env, |obls|);
      if DistinctObligations(obls) { PlanFollows(obls, env, |obls|); }
    }
  }

  // ---- What a resolution lists, obligation by obligation ----

  predicate EvidenceComplete(o: Obligation, cap: Capability, pool: Pool) {
    && (forall k :: 0 <= k < |o.evidence| ==> OnRecord(pool, o.evidence[k].id, o.evidence[k].evidenceClass))
    && (forall k :: 0 <= k < |cap.evidence| ==> OnRecord(pool, cap.evidence[k], "VERIFIED_FACT"))
  }

  predicate InputsOnHand(cap: Capability, produced: set<string>) {
    forall k :: 0 <= k < |cap.inputs| ==> cap.inputs[k] in produced
  }

  predicate Granted(cap: Capability, authority: set<string>) {
    forall k :: 0 <= k < |cap.authority| ==> cap.authority[k] in authority
  }

  /** Why an obligation is refused; every reason supposes that those before it do not apply. */
  ghost predicate Lacks(o: Obligation, env: Env, produced: set<string>, kind: DeficitKind) {
    var (authorised, known) := (o.authority != ModelHypothesis,
                                o.effect !in {"UNKNOWN_REPRESENTATION", "UNREPRESENTABLE_EFFECT"});
    match kind
    case SemanticBindingDeficit => !authorised
    case RepresentationDeficit => authorised && !known
    case CapabilityDeficit => authorised && known && env.select(o).None?
    case InputDeficit => authorised && known && env.select(o).Some? && !InputsOnHand(env.select(o).value, produced)
    case EvidenceDeficit =>
      && authorised && known && env.select(o).Some? && InputsOnHand(env.select(o).value, produced)
      && !EvidenceComplete(o, env.select(o).value, env.pool)
    case AuthorityDeficit =>
      && authorised && known && env.select(o).Some? && InputsOnHand(env.select(o).value, produced)
      && EvidenceComplete(o, env.select(o).value, env.pool) && !Granted(env.select(o).value, env.authority)
    case AmbiguousDeficit => false
  }

  lemma {:induction false} JudgementInFields(o: Obligation, env: Env, produced: set<string>)
    ensures match Judge(o, env, produced)
            case Deficient(kind) => Lacks(o, env, produced, kind)
            case Bind(cap) => env.select(o) == Some(cap) && forall kind :: !Lacks(o, env, produced, kind)
  {
    var cap := env.select(o);
    if cap.Some? {
      assert AllIn(cap.value.inputs, produced) <==> InputsOnHand(cap.value, produced);
      assert AllIn(cap.value.authority, env.authority) <==> Granted(cap.value, env.authority);
      EvidenceInFields(o, cap.value, env.pool);
    }
  }

  lemma {:induction false} EvidenceInFields(o: Obligation, cap: Capability, pool: Pool)
    ensures EvidenceGrounded(o, cap, pool) <==> EvidenceComplete(o, cap, pool)
  {
    forall need: EvidenceNeed ensures Grounded(need, pool) <==> OnRecord(pool, need.id, need.evidenceClass) {}
    if EvidenceComplete(o, cap, pool) {
      forall e | e in cap.evidence ensures Grounded(EvidenceNeed(e, "VERIFIED_FACT"), pool) {}
    }
    if EvidenceGrounded(o, cap, pool) {
      forall k | 0 <= k < |cap.evidence| ensures OnRecord(pool, cap.evidence[k], "VERIFIED_FACT") {
        assert Grounded(EvidenceNeed(cap.evidence[k], "VERIFIED_FACT"), pool);
      }
    }
  }

  /** The obligation is bound to its selected capability. */
  ghost predicate Served(o: Obligation, env: Env, produced: set<string>) {
    env.select(o).Some? && forall kind :: !Lacks(o, env, produced, kind)
  }

  /** Executing the selected capability for the obligation, as one operation. */
  ghost predicate Performs(op: Operation, o: Obligation, cap: Capability) {
    && op.id == "op_" + o.id && op.obligation == o.id && op.capability == cap.id
    && |cap.operators| > 0 && op.operator == cap.operators[0]
    && op.inputs == cap.inputs && op.outputs == cap.outputs && op.evidence == o.evidence
    && op.dependencies == [] && op.postconditions == ["Satisfied " + o.id]
  }

  /** One obligation's part in a resolution: an operation, a binding and more outputs, or a deficit. */
  ghost predicate Adds(p: Plan, o: Obligation, env: Env, q: Plan) {
    if Served(o, env, p.produced) then
      var cap := env.select(o).value;
      && |q.ops| == |p.ops| + 1 && q.ops[..|p.ops|] == p.ops && Performs(q.ops[|p.ops|], o, cap)
      && q.deficits == p.deficits && (forall x :: x in q.produced <==> x in p.produced || x in cap.outputs)
      && (forall b :: b in q.bindings ==> b in p.bindings || b == Binding(o.id, cap.id))
      && Binding(o.id, cap.id) in q.bindings
      && (forall b :: b in p.bindings && b.obligation != o.id ==> b in q.bindings)
    else
      && q.ops == p.ops && q.bindings == p.bindings && q.produced == p.produced
      && exists kind :: Lacks(o, env, p.produced, kind) && q.deficits == p.deficits + [Deficit(kind, o.id)]
  }

  /** The plans of a resolution, from the empty one over the inputs, one obligation at a time. */
  ghost predicate Accumulates(obls: seq<Obligation>, env: Env, plans: seq<Plan>) {
    && 0 < |plans| <= |obls| + 1 && plans[0] == Plan([], [], [], env.inputs)
    && forall k :: 0 <= k < |plans| - 1 ==> AddsAt(obls, env, plans, k)
  }

  ghost predicate AddsAt(obls: seq<Obligation>, env: Env, plans: seq<Plan>, k: nat) {
    k < |obls| && k + 1 < |plans| && Adds(plans[k], obls[k], env, plans[k + 1])
  }

  lemma {:induction false} InsertedMembers(bindings: seq<Binding>, b: Binding)
    ensures b in Insert(bindings, b)
    ensures forall c :: c in Insert(bindings, b) ==> c in bindings || c == b
    ensures forall c :: c in bindings && c.obligation != b.obligation ==> c in Insert(bindings, b)
  {
    if bindings != [] {
      assert bindings == [bindings[0]] + bindings[1..];
      if bindings[0].obligation != b.obligation { InsertedMembers(bindings[1..], b); }
    }
  }

  lemma {:induction false} StepAdds(p: Plan, o: Obligation, env: Env)
    requires Step(p, o, env).Ok?
    ensures Adds(p, o, env, Step(p, o, env).value)
  {
    JudgementInFields(o, env, p.produced);
    match Judge(o, env, p.produced)
    case Bind(cap) => InsertedMembers(p.bindings, Binding(o.id, cap.id));
    case Deficient(kind) => assert Lacks(o, env, p.produced, kind);
  }

  /** Every plan that is resolved, or refused with deficits, came about this way. */
  lemma {:induction false} ResolutionAccumulates(obls: seq<Obligation>, env: Env, n: nat) returns (plans: seq<Plan>)
    requires n <= |obls| && Resolve(obls, env, n).Ok?
    ensures Accumulates(obls, env, plans) && |plans| == n + 1 && plans[n] == Resolve(obls, env, n).value
  {
    if n == 0 { return [Plan([], [], [], env.inputs)]; }
    var before := ResolutionAccumulates(obls, env, n - 1);
    var p := Resolve(obls, env, n).value;
    plans := before + [p];
    StepAdds(before[n - 1], obls[n - 1], env);
    forall k | 0 <= k < n ensures AddsAt(obls, env, plans, k) {
      if k < n - 1 { assert AddsAt(obls, env, before, k); }
    }
  }

  /** It raises exactly at the first obligation whose selected capability would serve it and names no operator. */
  lemma {:induction false} CrashExactly(obls: seq<Obligation>, env: Env, n: nat)
    requires 0 < n <= |obls| && Resolve(obls, env, n - 1).Ok?
    ensures Resolve(obls, env, n).Err? <==>
            var (o, produced) := (obls[n - 1], Resolve(obls, env, n - 1).value.produced);
            Served(o, env, produced) && |env.select(o).value.operators| == 0
  {
    JudgementInFields(obls[n - 1], env, Resolve(obls, env, n - 1).value.produced);
  }

  // ---- Monotonicity and independence of registration order ----

  /** The registry answers alike, and nothing at hand in `env` is missing from `more`. */
  ghost predicate Enlarges(env: Env, more: Env) {
    && (forall o :: more.select(o) == env.select(o))
    && env.inputs <= more.inputs
    && (forall e :: e in env.pool ==> e in more.pool && more.pool[e] == env.pool[e])
    && env.authority <= more.authority
  }

  /** More inputs, evidence or authority keep a resolved plan: same operations, same bindings. */
  lemma {:induction false} ResolutionIsMonotone(obls: seq<Obligation>, env: Env, more: Env)
    requires Enlarges(env, more) && IsResolved(obls, env)
    ensures IsResolved(obls, more)
    ensures Resolve(obls, more, |obls|).value.ops == Resolve(obls, env, |obls|).value.ops
    ensures Resolve(obls, more, |obls|).value.bindings == Resolve(obls, env, |obls|).value.bindings
  {
    ResolvedExactly(obls, env);
    forall k | 0 <= k < |obls| ensures Feasible(obls, more, k) {
      assert Feasible(obls, env, k);
      ProvidedGrows(obls, env, more, k);
      FitsGrows(obls[k], env, Provided(obls, env, k), more, Provided(obls, more, k));
    }
    ResolvedExactly(obls, more);
    var (p, q) := (Resolve(obls, env, |obls|).value, Resolve(obls, more, |obls|).value);
    forall k | 0 <= k < |obls| ensures p.ops[k] == q.ops[k] && p.bindings[k] == q.bindings[k] {
      assert Follows(p, obls, env, k) && Follows(q, obls, more, k);
    }
  }

  lemma {:induction false} ProvidedGrows(obls: seq<Obligation>, env: Env, more: Env, n: nat)
    requires n <= |obls| && Enlarges(env, more)
    ensures Provided(obls, env, n) <= Provided(obls, more, n)
  {
    if n > 0 { ProvidedGrows(obls, env, more, n - 1); }
  }

  lemma {:induction false} FitsGrows(o: Obligation, env: Env, produced: set<string>, more: Env, produced': set<string>)
    requires Enlarges(env, more) && produced <= produced' && Fits(o, env, produced)
    ensures Fits(o, more, produced')
  {
    var cap := env.select(o).value;
    assert forall need: EvidenceNeed :: Grounded(need, env.pool) ==> Grounded(need, more.pool);
  }

  lemma {:induction false} SelectedIgnoresOrder(o: Obligation, a: seq<Capability>, b: seq<Capability>)
    requires DistinctCapabilities(a) && (forall c :: c in a <==> c in b)
    ensures Selected(o, a) == Selected(o, b)
  {
    var (p, q) := ((c: Capability) => StrictMatch(c, o), (c: Capability) => LooseMatch(c, o));
    FilterKeepsIdsDistinct(a, p);
    FilterKeepsIdsDistinct(a, q);
    SameMembersSameEmptiness(Filter(a, p), Filter(b, p));
    SameMembersSameEmptiness(Filter(a, q), Filter(b, q));
    if Candidates(a, o) != [] { SelectionIgnoresOrder(Candidates(a, o), Candidates(b, o), o.effect); }
  }

  lemma {:induction false} SameMembersSameEmptiness(a: seq<Capability>, b: seq<Capability>)
    requires forall c :: c in a <==> c in b
    ensures a == [] <==> b == []
  {
    if a != [] { assert a[0] in b; }
    if b != [] { assert b[0] in a; }
  }

  /** The plan does not depend on the order in which capabilities were registered. */
  lemma {:induction false} ResolutionIgnoresRegistrationOrder(
      obls: seq<Obligation>, env: Env, a: seq<Capability>, b: seq<Capability>)
    requires DistinctCapabilities(a) && (forall c :: c in a <==> c in b)
    requires IsResolved(obls, env.(select := Offer(a)))
    ensures IsResolved(obls, env.(select := Offer(b)))
    ensures var p := Resolve(obls, env.(select := Offer(a)), |obls|);
            var q := Resolve(obls, env.(select := Offer(b)), |obls|);
            q.value.ops == p.value.ops && q.value.bindings == p.value.bindings
  {
    forall o: Obligation ensures Selected(o, a) == Selected(o, b) { SelectedIgnoresOrder(o, a, b); }
    assert forall o: Obligation :: Offer(b)(o) == Offer(a)(o);
    ResolutionIsMonotone(obls, env.(select := Offer(a)), env.(select := Offer(b)));
  }

  datatype ResolutionProof = ResolutionProof(
    resolved: bool, bindings: seq<Binding>, ops: seq<Operation>, deficits: seq<Deficit>)

  /** The proof lists what accumulated over all obligations. */
  ghost predicate ProvedBy(obls: seq<Obligation>, env: Env, proof: ResolutionProof) {
    exists plans :: Accumulates(obls, env, plans) && |plans| == |obls| + 1 && Lists(proof, plans[|obls|], |obls|)
  }

  predicate Lists(proof: ResolutionProof, p: Plan, count: nat) {
    && proof.bindings == p.bindings && proof.ops == p.ops && proof.deficits == p.deficits
    && (proof.resolved <==> p.deficits == [] && |p.bindings| == count)
  }

  class GroundedSatisfactionResolver {
    const registry: CapabilityRegistry

    constructor (registry: CapabilityRegistry)
      ensures this.registry == registry
    {
      this.registry := registry;
    }

    method ResolveObligations(obls: seq<Obligation>, inputs: set<string>, pool: Pool, authority: Option<set<string>>)
        returns (r: Result<ResolutionProof, Crash>)
      ensures
        var env := Env(Offer(registry.caps), inputs, pool, if authority.Some? then authority.value
            else DEFAULT_AUTHORITY);
        var spec := Resolve(obls, env, |obls|);
        (r.Ok? ==> ProvedBy(obls, env, r.value)) && r.Ok? == spec.Ok? &&
        (r.Ok? ==> r.value == ResolutionProof(spec.value.Resolves(|obls|), spec.value.bindings, spec.value.ops,
            spec.value.deficits))
    {
      var granted := if authority.Some? then authority.value else DEFAULT_AUTHORITY;
      ghost var env := Env(Offer(registry.caps), inputs, pool, granted);
      var bindings, ops, deficits, produced := [], [], [], inputs;
      for i := 0 to |obls|
        invariant Resolve(obls, env, i) == Ok(Plan(bindings, ops, deficits, produced))
      {
        var o := obls[i];
        var verdict := JudgeObligation(o, inputs, pool, granted, produced);
        match verdict
        case Deficient(kind) =>
          deficits := deficits + [Deficit(kind, o.id)];
        case Bind(cap) =>
          if cap.operators == [] {
            CrashIsFinal(obls, env, i + 1, |obls|);
            return Err(IndexError);
          }
          bindings := Insert(bindings, Binding(o.id, cap.id));
          ops := ops + [Induce(o, cap)];
          produced := produced + KeySet(cap.outputs);
      }
      ghost var plans := ResolutionAccumulates(obls, env, |obls|);
      r := Ok(ResolutionProof(deficits == [] && |bindings| == |obls|, bindings, ops, deficits));
    }

    /** The body of the loop up to the binding: the first check that fails names the deficit. */
    method JudgeObligation(o: Obligation, inputs: set<string>, pool: Pool, granted: set<string>, produced: set<string>)
        returns (v: Verdict)
      ensures v == Judge(o, Env(Offer(registry.caps), inputs, pool, granted), produced)
    {
      if !o.HasClosureAuthority() { return Deficient(SemanticBindingDeficit); }
      if o.effect in ["UNKNOWN_REPRESENTATION", "UNREPRESENTABLE_EFFECT"] { return Deficient(RepresentationDeficit); }
      var found := registry.FindCandidates(o);
      if found == [] { return Deficient(CapabilityDeficit); }
      var cap := SelectBest(found, o.effect);
      if !AllIn(cap.inputs, produced) { return Deficient(InputDeficit); }
      if !EvidenceGrounded(o, cap, pool) { return Deficient(EvidenceDeficit); }
      if !AllIn(cap.authority, granted) { return Deficient(AuthorityDeficit); }
      return Bind(cap);
    }
  }

  lemma {:induction false} CrashIsFinal(obls: seq<Obligation>, env: Env, n: nat, m: nat)
    requires n <= m <= |obls| && Resolve(obls, env, n).Err?
    ensures Resolve(obls, env, m).Err?
  {
    if n < m { CrashIsFinal(obls, env, n, m - 1); }
  }
}
