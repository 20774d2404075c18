/** The planning vocabulary: operators, capabilities, obligations, operations and verification contracts. */
module Substrate {
  import opened Common

  datatype Operator =
    | Ingest | Extract | Compare | Transform | Decompose | Compose | Calculate
    | Retrieve | Test | Validate | Act | Decide | Escalate

  function OperatorName(op: Operator): string {
    match op
    case Ingest => "INGEST"
    case Extract => "EXTRACT"
    case Compare => "COMPARE"
    case Transform => "TRANSFORM"
    case Decompose => "DECOMPOSE"
    case Compose => "COMPOSE"
    case Calculate => "CALCULATE"
    case Retrieve => "RETRIEVE"
    case Test => "TEST"
    case Validate => "VALIDATE"
    case Act => "ACT"
    case Decide => "DECIDE"
    case Escalate => "ESCALATE"
  }

  datatype Lifecycle =
    | Candidate | SyntacticallyValid | IsolatedTested
    | VerifiedForTask | ProvisionallyAvailable | ReuseVerified | Promoted

  datatype Kind = RealPhysicalAdapter | VerifiedExternalAdapter | NonAuthoritativeTestDouble | Unavailable

  datatype Authority = SourceGrounded | SystemInvariant | VerifiedDomainDerived | ModelHypothesis | HumanApproved

  /** State-store values; the pipeline only tests them for None and equality. */
  datatype Value = NoneValue | Data(repr: string)

  type Store = map<string, Value>

  datatype AdapterOutput = Fields(fields: Store) | Scalar(v: Value)

  datatype CallResult = Output(output: AdapterOutput) | Raised(error: string)

  /** A parameter of an adapter: a name with or without a default, or the catch-all for keyword arguments. */
  datatype Parameter = Named(name: string, default: Option<Value>) | AnyKeywords

  /** An adapter can be called by name or with the whole state; not every one has a signature to inspect. */
  datatype Adapter = Adapter(
    signature: Option<seq<Parameter>>, byName: Store -> CallResult, byState: Store -> CallResult)

  datatype CheckResult = Passes | Fails | CheckRaised

  /** Contracts are kept as their key lists; an absent effect type is the empty string. */
  datatype Capability = Capability(
    id: string, operators: seq<Operator>, inputs: seq<string>, outputs: seq<string>,
    authority: seq<string>, evidence: seq<string>, kind: Kind, lifecycle: Lifecycle, effect: string,
    adapter: Adapter, verifier: Option<AdapterOutput -> CheckResult>)
  {
    predicate Authorized() {
      && (kind.RealPhysicalAdapter? || kind.VerifiedExternalAdapter?)
      && (lifecycle.VerifiedForTask? || lifecycle.ProvisionallyAvailable? || lifecycle.ReuseVerified?
              || lifecycle.Promoted?)
    }
  }

  datatype EvidenceNeed = EvidenceNeed(id: string, evidenceClass: string)

  /** The evidence pool: the recorded class of each piece of evidence. */
  type Pool = map<string, string>

  predicate Grounded(need: EvidenceNeed, pool: Pool) {
    && need.id in pool
    && pool[need.id] != "UNVERIFIED_MODEL_PRIOR"
    && pool[need.id] == need.evidenceClass
  }

  /** The pool records this piece of evidence with this very class, which is not a mere model prior. */
  predicate OnRecord(pool: Pool, id: string, class_: string) {
    id in pool && pool[id] == class_ && class_ != "UNVERIFIED_MODEL_PRIOR"
  }

  datatype Obligation = Obligation(
    id: string, authority: Authority, effect: string, inputs: seq<string>, outputs: seq<string>,
    evidence: seq<EvidenceNeed>, authorityNeeds: seq<string>, blocking: bool, expected: Store)
  {
    predicate HasClosureAuthority() {
      authority.SourceGrounded? || authority.SystemInvariant? || authority.VerifiedDomainDerived?
          || authority.HumanApproved?
    }
  }

  datatype Requirement = Requirement(id: string, description: string, blocking: bool)

  /** `capability` is empty for an unbound operation. */
  datatype Operation = Operation(
    id: string, operator: Operator, inputs: seq<string>, outputs: seq<string>, postconditions: seq<string>,
    dependencies: seq<string>, evidence: seq<EvidenceNeed>, capability: string, obligation: string)

  datatype Contract = Contract(
    id: string, condition: string, validator: Store -> bool, obligation: string, operation: string)

  predicate AllIn(keys: seq<string>, pool: set<string>) {
    forall k :: k in keys ==> k in pool
  }

  function KeySet(keys: seq<string>): set<string> {
    set k | k in keys
  }

  /** What an operation finds supplied: the initial inputs and the outputs of everything before it. */
  function Supplied(known: set<string>, ops: seq<Operation>, n: nat): set<string>
    requires n <= |ops|
  {
    if n == 0 then known else Supplied(known, ops, n - 1) + KeySet(ops[n - 1].outputs)
  }

  lemma {:induction false} SuppliedPrefix(known: set<string>, ops: seq<Operation>, more: seq<Operation>, n: nat)
    requires n <= |ops|
    ensures Supplied(known, ops + more, n) == Supplied(known, ops, n)
  {
    if n > 0 { SuppliedPrefix(known, ops, more, n - 1); }
  }

  lemma {:induction false} SuppliedGrows(known: set<string>, more: set<string>, ops: seq<Operation>, n: nat)
    requires n <= |ops| && known <= more
    ensures Supplied(known, ops, n) <= Supplied(more, ops, n)
  {
    if n > 0 { SuppliedGrows(known, more, ops, n - 1); }
  }
}
