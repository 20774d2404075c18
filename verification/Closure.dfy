/** The closure gate: sealed capability bindings, evidence classes and obligation authority. */
module Closure {
  import opened Common
  import opened Substrate
  import opened Registry

  datatype Gap =
    | Unbound(operation: string)
    | Unauthorized(operation: string, capability: string)
    | InputMismatch(operation: string, capability: string)
    | NoAuthority(obligation: string)

  datatype ClosureReport = ClosureReport(
    closed: bool, satisfiedOps: seq<string>, satisfiedEvidence: seq<string>,
    capabilityGaps: seq<Gap>, evidenceGaps: seq<string>)

  function GapOf(op: Operation, caps: seq<Capability>): Option<Gap> {
    if op.capability == "" then Some(Unbound(op.id))
    else match Lookup(caps, op.capability)
      case None => Some(Unauthorized(op.id, op.capability))
      case Some(cap) =>
        if !cap.Authorized() then Some(Unauthorized(op.id, op.capability))
        else if !AllIn(cap.inputs, KeySet(op.inputs)) then Some(InputMismatch(op.id, op.capability))
        else None
  }

  /** Evidence needs of one operation, split into the grounded and the others. */
  function EvidenceWhere(needs: seq<EvidenceNeed>, pool: Pool, grounded: bool): (r: seq<string>)
    ensures !grounded ==> (r == [] <==> forall need :: need in needs ==> Grounded(need, pool))
  {
    if needs == [] then []
    else
      var n := |needs| - 1;
      assert needs == needs[..n] + [needs[n]];
      EvidenceWhere(needs[..n], pool, grounded) + if Grounded(needs[n], pool) == grounded then [needs[n].id] else []
  }

  function AddOperation(r: ClosureReport, op: Operation, caps: seq<Capability>, pool: Pool): ClosureReport {
    var gap := GapOf(op, caps);
    r.(satisfiedOps := if gap.None? then r.satisfiedOps + [op.id] else r.satisfiedOps,
       capabilityGaps := if gap.None? then r.capabilityGaps else r.capabilityGaps + [gap.value],
       satisfiedEvidence := r.satisfiedEvidence + EvidenceWhere(op.evidence, pool, true),
       evidenceGaps := r.evidenceGaps + EvidenceWhere(op.evidence, pool, false))
  }

  function OverOperations(ops: seq<Operation>, caps: seq<Capability>, pool: Pool, n: nat): ClosureReport
    requires n <= |ops|
  {
    if n == 0 then ClosureReport(false, [], [], [], [])
    else AddOperation(OverOperations(ops, caps, pool, n - 1), ops[n - 1], caps, pool)
  }

  function AddObligation(r: ClosureReport, o: Obligation): ClosureReport {
    if o.blocking && !o.HasClosureAuthority() then r.(capabilityGaps := r.capabilityGaps + [NoAuthority(o.id)]) else r
  }

  function OverObligations(r: ClosureReport, obls: seq<Obligation>, n: nat): ClosureReport
    requires n <= |obls|
  {
    if n == 0 then r else AddObligation(OverObligations(r, obls, n - 1), obls[n - 1])
  }

  function Report(ops: seq<Operation>, caps: seq<Capability>, pool: Pool, obls: seq<Obligation>): ClosureReport {
    var r := OverObligations(OverOperations(ops, caps, pool, |ops|), obls, |obls|);
    r.(closed := r.capabilityGaps == [] && r.evidenceGaps == [])
  }

  predicate Legitimate(op: Operation, caps: seq<Capability>, pool: Pool) {
    && op.capability != ""
    && Lookup(caps, op.capability).Some?
    && Lookup(caps, op.capability).value.Authorized()
    && AllIn(Lookup(caps, op.capability).value.inputs, KeySet(op.inputs))
    && (forall need :: need in op.evidence ==> Grounded(need, pool))
  }

  predicate LegitimateAt(ops: seq<Operation>, caps: seq<Capability>, pool: Pool, k: nat)
    requires k < |ops|
  {
    Legitimate(ops[k], caps, pool)
  }

  ghost predicate AllLegitimate(ops: seq<Operation>, caps: seq<Capability>, pool: Pool, n: nat)
    requires n <= |ops|
  {
    forall k {:trigger LegitimateAt(ops, caps, pool, k)} :: 0 <= k < n ==> LegitimateAt(ops, caps, pool, k)
  }

  lemma {:induction false} AddOperationExactly(r: ClosureReport, op: Operation, caps: seq<Capability>, pool: Pool)
    ensures var added := AddOperation(r, op, caps, pool);
            added.capabilityGaps == [] && added.evidenceGaps == [] <==>
            r.capabilityGaps == [] && r.evidenceGaps == [] && Legitimate(op, caps, pool)
  {
  }

  lemma {:induction false} OperationsCloseExactly(ops: seq<Operation>, caps: seq<Capability>, pool: Pool, n: nat)
    requires n <= |ops|
    ensures var r := OverOperations(ops, caps, pool, n);
            r.capabilityGaps == [] && r.evidenceGaps == [] <==> AllLegitimate(ops, caps, pool, n)
  {
    if n > 0 {
      OperationsCloseExactly(ops, caps, pool, n - 1);
      assert AllLegitimate(ops, caps, pool, n) <==>
             AllLegitimate(ops, caps, pool, n - 1) && LegitimateAt(ops, caps, pool, n - 1);
      AddOperationExactly(OverOperations(ops, caps, pool, n - 1), ops[n - 1], caps, pool);
    }
  }

  lemma {:induction false} ObligationsCloseExactly(r: ClosureReport, obls: seq<Obligation>, n: nat)
    requires n <= |obls|
    ensures OverObligations(r, obls, n).evidenceGaps == r.evidenceGaps
    ensures OverObligations(r, obls, n).capabilityGaps == [] <==>
            r.capabilityGaps == [] && forall k :: 0 <= k < n && obls[k].blocking ==> obls[k].HasClosureAuthority()
  {
    if n > 0 { ObligationsCloseExactly(r, obls, n - 1); }
  }

  /** The gate closes exactly on legitimate operations under authoritative blocking obligations. */
  lemma {:induction false} ClosedExactly(ops: seq<Operation>, caps: seq<Capability>, pool: Pool, obls: seq<Obligation>)
    ensures Report(ops, caps, pool, obls).closed <==>
            && AllLegitimate(ops, caps, pool, |ops|)
            && (forall k :: 0 <= k < |obls| && obls[k].blocking ==> obls[k].HasClosureAuthority())
  {
    OperationsCloseExactly(ops, caps, pool, |ops|);
    ObligationsCloseExactly(OverOperations(ops, caps, pool, |ops|), obls, |obls|);
  }

  // ---- The report, field by field ----

  /** The operation carries an executable capability whose inputs are all its own. */
  ghost predicate SoundlyBound(op: Operation, caps: seq<Capability>) {
    op.capability != "" && exists c :: Executable(caps, op.capability, c) && InputsWithin(c, op)
  }

  predicate InputsWithin(c: Capability, op: Operation) {
    forall k :: 0 <= k < |c.inputs| ==> c.inputs[k] in op.inputs
  }

  /** What is wrong with an operation's capability. */
  ghost predicate Ails(op: Operation, caps: seq<Capability>, gap: Gap) {
    match gap
    case Unbound(id) => id == op.id && op.capability == ""
    case Unauthorized(id, cap) =>
      id == op.id && cap == op.capability != "" && forall c :: c in caps ==> !Executable(caps, cap, c)
    case InputMismatch(id, cap) =>
      id == op.id && cap == op.capability != "" && exists c :: Executable(caps, cap, c) && !InputsWithin(c, op)
    case NoAuthority(_) => false
  }

  ghost predicate Needs(op: Operation, pool: Pool, id: string, met: bool) {
    exists j :: 0 <= j < |op.evidence| && op.evidence[j].id == id &&
                OnRecord(pool, id, op.evidence[j].evidenceClass) == met
  }

  predicate Powerless(o: Obligation, gap: Gap) {
    gap == NoAuthority(o.id) && o.blocking && o.authority == ModelHypothesis
  }

  ghost function BoundAs(caps: seq<Capability>, id: string): Operation -> bool {
    (op: Operation) => op.id == id && SoundlyBound(op, caps)
  }

  ghost function AilsWith(caps: seq<Capability>, gap: Gap): Operation -> bool {
    op => Ails(op, caps, gap)
  }

  ghost function NeedsOf(pool: Pool, id: string, met: bool): Operation -> bool {
    op => Needs(op, pool, id, met)
  }

  ghost predicate SomeOp(ops: seq<Operation>, n: nat, p: Operation -> bool)
    requires n <= |ops|
  {
    exists k :: 0 <= k < n && p(ops[k])
  }

  lemma {:induction false} SomeOpStep(ops: seq<Operation>, n: nat, p: Operation -> bool)
    requires 0 < n <= |ops|
    ensures SomeOp(ops, n, p) <==> SomeOp(ops, n - 1, p) || p(ops[n - 1])
  {
  }

  lemma {:induction false} GapInFields(op: Operation, caps: seq<Capability>)
    requires DistinctCapabilities(caps)
    ensures GapOf(op, caps).None? <==> SoundlyBound(op, caps)
    ensures forall gap :: GapOf(op, caps) == Some(gap) <==> Ails(op, caps, gap)
  {
    forall c { ExecutableExactly(caps, op.capability, c); }
    forall c { InputsWithinExactly(c, op); }
  }

  lemma {:induction false} InputsWithinExactly(c: Capability, op: Operation)
    ensures AllIn(c.inputs, KeySet(op.inputs)) <==> InputsWithin(c, op)
  {
    if InputsWithin(c, op) {
      forall k | k in c.inputs ensures k in KeySet(op.inputs) {
        var i :| 0 <= i < |c.inputs| && c.inputs[i] == k;
      }
    }
    if AllIn(c.inputs, KeySet(op.inputs)) {
      forall k | 0 <= k < |c.inputs| ensures c.inputs[k] in op.inputs { assert c.inputs[k] in c.inputs; }
    }
  }

  lemma {:induction false} EvidenceWhereExactly(needs: seq<EvidenceNeed>, pool: Pool, met: bool, id: string)
    ensures id in EvidenceWhere(needs, pool, met) <==>
            exists j :: 0 <= j < |needs| && needs[j].id == id && OnRecord(pool, id, needs[j].evidenceClass) == met
  {
    if needs != [] {
      var n := |needs| - 1;
      EvidenceWhereExactly(needs[..n], pool, met, id);
      assert Grounded(needs[n], pool) <==> OnRecord(pool, needs[n].id, needs[n].evidenceClass);
      if id in EvidenceWhere(needs, pool, met) && !(needs[n].id == id && Grounded(needs[n], pool) == met) {
        assert id in EvidenceWhere(needs[..n], pool, met);
      }
    }
  }

  lemma {:induction false} SatisfiedList(ops: seq<Operation>, caps: seq<Capability>, pool: Pool, n: nat, id: string)
    requires DistinctCapabilities(caps) && n <= |ops|
    ensures id in OverOperations(ops, caps, pool, n).satisfiedOps <==> SomeOp(ops, n, BoundAs(caps, id))
  {
    if n > 0 {
      SatisfiedList(ops, caps, pool, n - 1, id);
      GapInFields(ops[n - 1], caps);
      SomeOpStep(ops, n, BoundAs(caps, id));
    }
  }

  lemma {:induction false} GapList(ops: seq<Operation>, caps: seq<Capability>, pool: Pool, n: nat, gap: Gap)
    requires DistinctCapabilities(caps) && n <= |ops|
    ensures gap in OverOperations(ops, caps, pool, n).capabilityGaps <==> SomeOp(ops, n, AilsWith(caps, gap))
  {
    if n > 0 {
      GapList(ops, caps, pool, n - 1, gap);
      GapInFields(ops[n - 1], caps);
      SomeOpStep(ops, n, AilsWith(caps, gap));
    }
  }

  function Listed(r: ClosureReport, met: bool): seq<string> {
    if met then r.satisfiedEvidence else r.evidenceGaps
  }

  lemma {:induction false} EvidenceOfOne(
      r: ClosureReport, op: Operation, caps: seq<Capability>, pool: Pool, id: string, met: bool)
    ensures id in Listed(AddOperation(r, op, caps, pool), met) <==>
            id in Listed(r, met) || NeedsOf(pool, id, met)(op)
  {
    EvidenceWhereExactly(op.evidence, pool, met, id);
  }

  ghost predicate Collects(ops: seq<Operation>, held: nat -> bool, has: Operation -> bool, n: nat) {
    n <= |ops| && !held(0) && forall k :: 0 <= k < n ==> (held(k + 1) <==> held(k) || has(ops[k]))
  }

  /** What is picked up on the way is held at the end exactly if some operation has it. */
  lemma {:induction false} CollectsExactly(ops: seq<Operation>, held: nat -> bool, has: Operation -> bool, n: nat)
    requires Collects(ops, held, has, n)
    ensures held(n) <==> SomeOp(ops, n, has)
  {
    if n > 0 {
      CollectsExactly(ops, held, has, n - 1);
      SomeOpStep(ops, n, has);
    }
  }

  ghost function HeldAfter(
      ops: seq<Operation>, caps: seq<Capability>, pool: Pool, id: string, met: bool): nat -> bool
  {
    (k: nat) => k <= |ops| && id in Listed(OverOperations(ops, caps, pool, k), met)
  }

  lemma {:induction false} HeldStep(
      ops: seq<Operation>, caps: seq<Capability>, pool: Pool, k: nat, id: string, met: bool)
    requires k < |ops|
    ensures var held := HeldAfter(ops, caps, pool, id, met);
            held(k + 1) <==> held(k) || NeedsOf(pool, id, met)(ops[k])
  {
    EvidenceOfOne(OverOperations(ops, caps, pool, k), ops[k], caps, pool, id, met);
  }

  lemma {:induction false} HeldAtEnd(
      ops: seq<Operation>, caps: seq<Capability>, pool: Pool, id: string, met: bool, held: nat -> bool)
    requires held == HeldAfter(ops, caps, pool, id, met)
    ensures !held(0) && (held(|ops|) <==> id in Listed(OverOperations(ops, caps, pool, |ops|), met))
  {
  }

  lemma {:induction false} EvidenceCollects(
      ops: seq<Operation>, caps: seq<Capability>, pool: Pool, id: string, met: bool, held: nat -> bool,
      has: Operation -> bool)
    requires held == HeldAfter(ops, caps, pool, id, met) && has == NeedsOf(pool, id, met)
    ensures held(|ops|) <==> SomeOp(ops, |ops|, has)
  {
    HeldAtEnd(ops, caps, pool, id, met, held);
    forall k | 0 <= k < |ops| ensures held(k + 1) <==> held(k) || has(ops[k]) {
      HeldStep(ops, caps, pool, k, id, met);
    }
    CollectsExactly(ops, held, has, |ops|);
  }

  lemma {:induction false} EvidenceList(ops: seq<Operation>, caps: seq<Capability>, pool: Pool, id: string, met: bool)
    ensures id in Listed(OverOperations(ops, caps, pool, |ops|), met) <==>
            SomeOp(ops, |ops|, NeedsOf(pool, id, met))
  {
    EvidenceCollects(ops, caps, pool, id, met, HeldAfter(ops, caps, pool, id, met), NeedsOf(pool, id, met));
    HeldAtEnd(ops, caps, pool, id, met, HeldAfter(ops, caps, pool, id, met));
  }

  lemma {:induction false} ObligationsList(r: ClosureReport, obls: seq<Obligation>, n: nat, gap: Gap)
    requires n <= |obls|
    ensures var after := OverObligations(r, obls, n);
            && (gap in after.capabilityGaps <==>
                  gap in r.capabilityGaps || exists k :: 0 <= k < n && Powerless(obls[k], gap))
            && after == r.(capabilityGaps := after.capabilityGaps)
  {
    if n > 0 { ObligationsList(r, obls, n - 1, gap); }
  }

  /** The lists of a report hold exactly what they are named for, and it is closed exactly when no gap is listed. */
  ghost predicate Accounts(
      r: ClosureReport, ops: seq<Operation>, caps: seq<Capability>, pool: Pool, obls: seq<Obligation>)
  {
    && (forall id :: id in r.satisfiedOps <==> SomeOp(ops, |ops|, BoundAs(caps, id)))
    && (forall gap :: gap in r.capabilityGaps <==>
          SomeOp(ops, |ops|, AilsWith(caps, gap)) || exists k :: 0 <= k < |obls| && Powerless(obls[k], gap))
    && (forall id :: id in r.satisfiedEvidence <==> SomeOp(ops, |ops|, NeedsOf(pool, id, true)))
    && (forall id :: id in r.evidenceGaps <==> SomeOp(ops, |ops|, NeedsOf(pool, id, false)))
    && (r.closed <==> |r.capabilityGaps| == 0 && |r.evidenceGaps| == 0)
  }

  lemma {:induction false} ReportAccounts(ops: seq<Operation>, caps: seq<Capability>, pool: Pool, obls: seq<Obligation>)
    requires DistinctCapabilities(caps)
    ensures Accounts(Report(ops, caps, pool, obls), ops, caps, pool, obls)
  {
    var before := OverOperations(ops, caps, pool, |ops|);
    var after := OverObligations(before, obls, |obls|);
    ObligationsList(before, obls, |obls|, Unbound(""));
    forall id
      ensures id in after.satisfiedOps <==> SomeOp(ops, |ops|, BoundAs(caps, id))
      ensures id in after.satisfiedEvidence <==> SomeOp(ops, |ops|, NeedsOf(pool, id, true))
      ensures id in after.evidenceGaps <==> SomeOp(ops, |ops|, NeedsOf(pool, id, false))
    {
      SatisfiedList(ops, caps, pool, |ops|, id);
      EvidenceList(ops, caps, pool, id, true);
      EvidenceList(ops, caps, pool, id, false);
    }
    forall gap
      ensures gap in after.capabilityGaps <==>
              SomeOp(ops, |ops|, AilsWith(caps, gap)) || exists k :: 0 <= k < |obls| && Powerless(obls[k], gap)
    {
      GapList(ops, caps, pool, |ops|, gap);
      ObligationsList(before, obls, |obls|, gap);
    }
  }

  class ClosureGate {
    const registry: CapabilityRegistry

    constructor (registry: CapabilityRegistry)
      ensures this.registry == registry
    {
      this.registry := registry;
    }

    method EvaluateClosure(ops: seq<Operation>, pool: Pool, obls: seq<Obligation>) returns (report: ClosureReport)
      ensures report == Report(ops, registry.caps, pool, obls)
      ensures DistinctCapabilities(registry.caps) ==> Accounts(report, ops, registry.caps, pool, obls)
    {
      if DistinctCapabilities(registry.caps) { ReportAccounts(ops, registry.caps, pool, obls); }
      var r := ClosureReport(false, [], [], [], []);
      for i := 0 to |ops|
        invariant r == OverOperations(ops, registry.caps, pool, i)
      {
        r := CheckOperation(r, ops[i], pool);
      }
      r := CheckObligations(r, obls);
      report := r.(closed := r.capabilityGaps == [] && r.evidenceGaps == []);
    }

    method CheckOperation(r: ClosureReport, op: Operation, pool: Pool) returns (added: ClosureReport)
      ensures added == AddOperation(r, op, registry.caps, pool)
    {
      var gap := GapOf(op, registry.caps);
      var met, open := SplitEvidence(op.evidence, pool);
      added := r.(satisfiedEvidence := r.satisfiedEvidence + met, evidenceGaps := r.evidenceGaps + open);
      if gap.None? {
        added := added.(satisfiedOps := r.satisfiedOps + [op.id]);
      } else {
        added := added.(capabilityGaps := r.capabilityGaps + [gap.value]);
      }
    }

    method CheckObligations(r: ClosureReport, obls: seq<Obligation>) returns (checked: ClosureReport)
      ensures checked == OverObligations(r, obls, |obls|)
    {
      checked := r;
      for i := 0 to |obls|
        invariant checked == OverObligations(r, obls, i)
      {
        if obls[i].blocking && !obls[i].HasClosureAuthority() {
          checked := checked.(capabilityGaps := checked.capabilityGaps + [NoAuthority(obls[i].id)]);
        }
      }
    }
  }

  method SplitEvidence(needs: seq<EvidenceNeed>, pool: Pool) returns (met: seq<string>, open: seq<string>)
    ensures met == EvidenceWhere(needs, pool, true) && open == EvidenceWhere(needs, pool, false)
  {
    met, open := [], [];
    for i := 0 to |needs|
      invariant met == EvidenceWhere(needs[..i], pool, true) && open == EvidenceWhere(needs[..i], pool, false)
    {
      assert needs[..i + 1][..i] == needs[..i];
      if Grounded(needs[i], pool) { met := met + [needs[i].id]; } else { open := open + [needs[i].id]; }
    }
    assert needs[..|needs|] == needs;
  }
}
