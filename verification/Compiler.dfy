/** Compiling a plan into a sealed execution graph, and running the graph. */
module Compiler {
  import opened Common
  import opened Substrate
  import opened Registry
  import opened Resolution
  import Closure
  import Decomposition

  datatype CompileError = ObjectiveInadequate | ClosureDeficit | DecompositionIncomplete

  /** A gate without a validator is one whose validator accepts everything. */
  datatype Graph = Graph(ops: seq<Operation>, bindings: map<string, string>, gates: seq<Contract>)

  /** The first binding of the resolution proof that belongs to an operation carrying none itself. */
  function FallbackBinding(bindings: seq<Binding>, opId: string): string {
    if bindings == [] then ""
    else if "op_" + bindings[0].obligation == opId || Decomposition.Contains(opId, bindings[0].obligation)
    then bindings[0].capability
    else FallbackBinding(bindings[1..], opId)
  }

  function SealedBinding(op: Operation, bindings: seq<Binding>): string {
    if op.capability != "" then op.capability else FallbackBinding(bindings, op.id)
  }

  predicate Sealable(op: Operation, bindings: seq<Binding>, caps: seq<Capability>) {
    var id := SealedBinding(op, bindings);
    id != "" && Lookup(caps, id).Some? && Lookup(caps, id).value.Authorized()
  }

  /** The bindings dictionary after the first n operations; a repeated operation id is overwritten. */
  function SealedBindings(ops: seq<Operation>, bindings: seq<Binding>, n: nat): map<string, string>
    requires n <= |ops|
  {
    if n == 0 then map[] else SealedBindings(ops, bindings, n - 1)[ops[n - 1].id := SealedBinding(ops[n - 1], bindings)]
  }

  /** A binding of the resolution that goes with an operation id: made from its obligation, or mentioning it. */
  ghost predicate GoesWith(b: Binding, opId: string) {
    opId == "op_" + b.obligation || exists i: nat :: Decomposition.OccursAt(opId, b.obligation, i)
  }

  /** The capability to be sealed: the operation's own, or that of the first binding that goes with it. */
  ghost predicate Seals(op: Operation, bindings: seq<Binding>, id: string) {
    if op.capability != "" then id == op.capability
    else if exists i :: 0 <= i < |bindings| && GoesWith(bindings[i], op.id) then
      exists i :: 0 <= i < |bindings| && GoesWith(bindings[i], op.id) && id == bindings[i].capability &&
                  forall j :: 0 <= j < i ==> !GoesWith(bindings[j], op.id)
    else id == ""
  }

  lemma {:induction false} FallbackExactly(bindings: seq<Binding>, opId: string)
    ensures var none := forall i :: 0 <= i < |bindings| ==> !GoesWith(bindings[i], opId);
            if none then FallbackBinding(bindings, opId) == ""
            else exists i :: 0 <= i < |bindings| && GoesWith(bindings[i], opId) &&
                             FallbackBinding(bindings, opId) == bindings[i].capability &&
                             forall j :: 0 <= j < i ==> !GoesWith(bindings[j], opId)
  {
    if bindings != [] {
      Decomposition.ContainsExactly(opId, bindings[0].obligation);
      if !GoesWith(bindings[0], opId) {
        var rest := bindings[1..];
        FallbackExactly(rest, opId);
        forall i | 1 <= i < |bindings| ensures bindings[i] == rest[i - 1] {}
        if i :| 0 <= i < |rest| && GoesWith(rest[i], opId) && FallbackBinding(rest, opId) == rest[i].capability &&
                forall j :: 0 <= j < i ==> !GoesWith(rest[j], opId) {
          assert bindings[i + 1] == rest[i];
          forall j | 0 <= j < i + 1 ensures !GoesWith(bindings[j], opId) {
            if j > 0 { assert bindings[j] == rest[j - 1]; }
          }
        }
      }
    }
  }

  lemma {:induction false} SealExactly(op: Operation, bindings: seq<Binding>)
    ensures Seals(op, bindings, SealedBinding(op, bindings))
  {
    FallbackExactly(bindings, op.id);
  }

  /** Every operation can be sealed with an executable capability. */
  ghost predicate AllSealable(ops: seq<Operation>, bindings: seq<Binding>, caps: seq<Capability>) {
    forall k :: 0 <= k < |ops| ==> HasSeal(ops[k], bindings, caps)
  }

  ghost predicate HasSeal(op: Operation, bindings: seq<Binding>, caps: seq<Capability>) {
    exists id, c :: Seals(op, bindings, id) && id != "" && Executable(caps, id, c)
  }

  /** The graph keeps operations and contracts, and binds each operation id as its last bearer is sealed. */
  ghost predicate SealedAs(g: Graph, ops: seq<Operation>, contracts: seq<Contract>, bindings: seq<Binding>) {
    && g.ops == ops && g.gates == contracts
    && (forall id :: id in g.bindings <==> exists k :: 0 <= k < |ops| && ops[k].id == id)
    && (forall k :: 0 <= k < |ops| && (forall j :: k < j < |ops| ==> ops[j].id != ops[k].id) ==>
          ops[k].id in g.bindings && Seals(ops[k], bindings, g.bindings[ops[k].id]))
  }

  lemma {:induction false} SealOne(ops: seq<Operation>, bindings: seq<Binding>, n: nat, id: string, k: nat)
    requires n <= |ops|
    ensures id in SealedBindings(ops, bindings, n) <==> exists k :: 0 <= k < n && ops[k].id == id
    ensures k < n && (forall j :: k < j < n ==> ops[j].id != ops[k].id) ==>
              && ops[k].id in SealedBindings(ops, bindings, n)
              && SealedBindings(ops, bindings, n)[ops[k].id] == SealedBinding(ops[k], bindings)
  {
    if n > 0 { SealOne(ops, bindings, n - 1, id, k); }
  }

  lemma {:induction false} SealedGraph(ops: seq<Operation>, contracts: seq<Contract>, bindings: seq<Binding>)
    ensures SealedAs(Graph(ops, SealedBindings(ops, bindings, |ops|), contracts), ops, contracts, bindings)
  {
    var n := |ops|;
    forall id ensures id in SealedBindings(ops, bindings, n) <==> exists k :: 0 <= k < n && ops[k].id == id {
      SealOne(ops, bindings, n, id, 0);
    }
    forall k | 0 <= k < n && (forall j :: k < j < n ==> ops[j].id != ops[k].id)
      ensures ops[k].id in SealedBindings(ops, bindings, n)
      ensures Seals(ops[k], bindings, SealedBindings(ops, bindings, n)[ops[k].id])
    {
      SealOne(ops, bindings, n, "", k);
      SealExactly(ops[k], bindings);
    }
  }

  /** Compiling succeeds past the gates exactly when all can be sealed, and then seals each with its own. */
  lemma {:induction false} CompiledInFields(
      ops: seq<Operation>, contracts: seq<Contract>, bindings: seq<Binding>, caps: seq<Capability>)
    requires DistinctCapabilities(caps)
    ensures AllSealable(ops, bindings, caps) <==> forall k :: 0 <= k < |ops| ==> Sealable(ops[k], bindings, caps)
    ensures SealedAs(Graph(ops, SealedBindings(ops, bindings, |ops|), contracts), ops, contracts, bindings)
  {
    SealedGraph(ops, contracts, bindings);
    forall k | 0 <= k < |ops| ensures Sealable(ops[k], bindings, caps) <==> HasSeal(ops[k], bindings, caps) {
      SealsOnce(ops[k], bindings, caps);
    }
  }

  lemma {:induction false} SealsOnce(op: Operation, bindings: seq<Binding>, caps: seq<Capability>)
    requires DistinctCapabilities(caps)
    ensures forall id :: Seals(op, bindings, id) <==> id == SealedBinding(op, bindings)
    ensures Sealable(op, bindings, caps) <==> HasSeal(op, bindings, caps)
  {
    SealExactly(op, bindings);
    var id := SealedBinding(op, bindings);
    forall c { ExecutableExactly(caps, id, c); }
    forall other | Seals(op, bindings, other) ensures other == id { FirstIsOne(op, bindings, other, id); }
    if Sealable(op, bindings, caps) {
      assert Seals(op, bindings, id) && id != "" && Executable(caps, id, Lookup(caps, id).value);
    }
  }

  lemma {:induction false} FirstIsOne(op: Operation, bindings: seq<Binding>, a: string, b: string)
    requires Seals(op, bindings, a) && Seals(op, bindings, b)
    ensures a == b
  {
    if op.capability == "" && exists i :: 0 <= i < |bindings| && GoesWith(bindings[i], op.id) {
      var i :| 0 <= i < |bindings| && GoesWith(bindings[i], op.id) && a == bindings[i].capability &&
               forall j :: 0 <= j < i ==> !GoesWith(bindings[j], op.id);
      var k :| 0 <= k < |bindings| && GoesWith(bindings[k], op.id) && b == bindings[k].capability &&
               forall j :: 0 <= j < k ==> !GoesWith(bindings[j], op.id);
      assert i == k;
    }
  }

  ghost predicate DistinctOps(ops: seq<Operation>) {
    forall i, j :: 0 <= i < j < |ops| ==> ops[i].id != ops[j].id
  }

  /** With distinct ids the dictionary gives every operation its own binding. */
  lemma {:induction false} EachKeepsItsBinding(ops: seq<Operation>, bindings: seq<Binding>, n: nat)
    requires n <= |ops| && DistinctOps(ops)
    ensures forall k :: 0 <= k < n ==>
              ops[k].id in SealedBindings(ops, bindings, n)
              && SealedBindings(ops, bindings, n)[ops[k].id] == SealedBinding(ops[k], bindings)
  {
    if n > 0 { EachKeepsItsBinding(ops, bindings, n - 1); }
  }

  // ---- Execution ----

  /** A raising capability verifier is not caught: the run ends without a result of its own. */
  datatype Failure =
    | CapabilityUnauthorized(operation: string)
    | ExecutionError(operation: string, error: string)
    | CapabilityVerificationFailed(operation: string)
    | VerifierRaised(operation: string)
    | GateFailed(contract: string)

  datatype ExecutionResult = Success(final: Store, trace: seq<string>) | Failure(failure: Failure)

  /** The arguments an adapter is called with by name; a catch-all parameter takes the whole store. */
  function Arguments(params: seq<Parameter>, s: Store, args: Store): Store {
    if params == [] then args
    else match params[0]
      case AnyKeywords => args + s
      case Named(name, default) =>
        Arguments(params[1..], s, if name in s then args[name := s[name]]
                                  else if default.Some? then args[name := default.value] else args)
  }

  /** Called by name, and if that raises, a second time with the whole state. */
  function Invoke(a: Adapter, s: Store): CallResult {
    if a.signature.None? then a.byState(s)
    else
      var result := a.byName(Arguments(a.signature.value, s, map[]));
      if result.Output? then result else a.byState(s)
  }

  predicate Names(params: seq<Parameter>, key: string) {
    exists i :: 0 <= i < |params| && params[i].Named? && params[i].name == key
  }

  ghost predicate AgreeOn(params: seq<Parameter>, s: Store, t: Store) {
    forall key :: Names(params, key) ==> (key in s <==> key in t) && (key in s ==> s[key] == t[key])
  }

  lemma {:induction false} NamesTail(params: seq<Parameter>, key: string)
    requires params != []
    ensures Names(params, key) <==> (params[0].Named? && params[0].name == key) || Names(params[1..], key)
  {
    if Names(params[1..], key) {
      var i :| 0 <= i < |params[1..]| && params[1..][i].Named? && params[1..][i].name == key;
      assert params[i + 1] == params[1..][i];
    }
    if Names(params, key) {
      var i :| 0 <= i < |params| && params[i].Named? && params[i].name == key;
      if i > 0 { assert params[1..][i - 1] == params[i]; }
    }
  }

  /** Without a catch-all, the arguments depend on the named entries of the store alone. */
  lemma {:induction false} ArgumentsFollowNames(params: seq<Parameter>, s: Store, t: Store, args: Store)
    requires AnyKeywords !in params && AgreeOn(params, s, t)
    ensures Arguments(params, s, args) == Arguments(params, t, args)
  {
    if params != [] {
      assert params[0].Named? && Names(params, params[0].name);
      forall key | Names(params[1..], key) ensures Names(params, key) { NamesTail(params, key); }
      var (name, default) := (params[0].name, params[0].default);
      ArgumentsFollowNames(params[1..], s, t, if name in s then args[name := s[name]]
                                              else if default.Some? then args[name := default.value] else args);
    }
  }

  /** An adapter that accepts its named arguments sees nothing else of the store. */
  lemma {:induction false} InvokeFollowsNames(a: Adapter, s: Store, t: Store)
    requires a.signature.Some? && AnyKeywords !in a.signature.value && AgreeOn(a.signature.value, s, t)
    requires a.byName(Arguments(a.signature.value, s, map[])).Output?
    ensures Invoke(a, s) == Invoke(a, t)
  {
    ArgumentsFollowNames(a.signature.value, s, t, map[]);
  }

  function Write(out: AdapterOutput, declared: seq<string>, s: Store): (r: Store)
    ensures s.Keys <= r.Keys
    ensures out.Scalar? ==> forall k :: k in declared ==> k in r && r[k] == out.v
    ensures out.Fields? ==> forall k :: k in out.fields ==> k in r && r[k] == out.fields[k]
  {
    match out
    case Fields(fields) => s + fields
    case Scalar(v) => s + map k | k in declared :: v
  }

  /** The capability an operation runs with, if it still has an authorised one. */
  function Runnable(caps: seq<Capability>, g: Graph, op: Operation): Option<Capability> {
    if op.id !in g.bindings then None
    else
      var cap := Lookup(caps, g.bindings[op.id]);
      if cap.Some? && cap.value.Authorized() then cap else None
  }

  /** A capability without a verifier passes. */
  function Check(cap: Capability, out: AdapterOutput): CheckResult {
    if cap.verifier.Some? then cap.verifier.value(out) else Passes
  }

  function RunOp(caps: seq<Capability>, g: Graph, op: Operation, s: Store): (r: Result<Store, Failure>)
    ensures r.Ok? ==> s.Keys <= r.value.Keys
  {
    match Runnable(caps, g, op)
    case None => Err(CapabilityUnauthorized(op.id))
    case Some(cap) =>
      match Invoke(cap.adapter, s)
      case Raised(error) => Err(ExecutionError(op.id, error))
      case Output(out) =>
        match Check(cap, out)
        case Passes => Ok(Write(out, op.outputs, s))
        case Fails => Err(CapabilityVerificationFailed(op.id))
        case CheckRaised => Err(VerifierRaised(op.id))
  }

  function RunOps(caps: seq<Capability>, g: Graph, s: Store, n: nat): Result<Store, Failure>
    requires n <= |g.ops|
  {
    if n == 0 then Ok(s)
    else match RunOps(caps, g, s, n - 1)
      case Err(e) => Err(e)
      case Ok(before) => RunOp(caps, g, g.ops[n - 1], before)
  }

  function FirstRefusal(gates: seq<Contract>, s: Store): (r: Option<Contract>)
    ensures r.Some? ==> r.value in gates && !r.value.validator(s)
    ensures r.None? <==> forall gate :: gate in gates ==> gate.validator(s)
  {
    if gates == [] then None
    else if !gates[0].validator(s) then Some(gates[0])
    else FirstRefusal(gates[1..], s)
  }

  function Execute(caps: seq<Capability>, g: Graph, s: Store): ExecutionResult {
    match RunOps(caps, g, s, |g.ops|)
    case Err(e) => Failure(e)
    case Ok(final) =>
      match FirstRefusal(g.gates, final)
      case Some(gate) => Failure(GateFailed(gate.id))
      case None => Success(final, seq(|g.ops|, i requires 0 <= i < |g.ops| => g.ops[i].id))
  }

  lemma {:induction false} FailureIsFinal(caps: seq<Capability>, g: Graph, s: Store, n: nat, m: nat)
    requires n <= m <= |g.ops| && RunOps(caps, g, s, n).Err?
    ensures RunOps(caps, g, s, m) == RunOps(caps, g, s, n)
  {
    if n < m { FailureIsFinal(caps, g, s, n, m - 1); }
  }

  /** Keys are never lost: the store before operation n is part of the store before any later one. */
  lemma {:induction false} StoreKeysGrow(caps: seq<Capability>, g: Graph, s: Store, n: nat, m: nat)
    requires n <= m <= |g.ops| && RunOps(caps, g, s, m).Ok?
    ensures RunOps(caps, g, s, n).Ok?
    ensures RunOps(caps, g, s, n).value.Keys <= RunOps(caps, g, s, m).value.Keys
  {
    if n < m { StoreKeysGrow(caps, g, s, n, m - 1); }
  }

  ghost predicate AllRunnable(caps: seq<Capability>, g: Graph) {
    forall k :: 0 <= k < |g.ops| ==> Runnable(caps, g, g.ops[k]).Some?
  }

  /** With every operation runnable, a run can fail only in an adapter or in its capability's own verifier. */
  lemma {:induction false} RunnableGraphsFailInside(caps: seq<Capability>, g: Graph, s: Store, n: nat)
    requires AllRunnable(caps, g) && n <= |g.ops|
    ensures var r := RunOps(caps, g, s, n);
            r.Err? ==> r.error.ExecutionError? || r.error.CapabilityVerificationFailed? || r.error.VerifierRaised?
  {
    if n > 0 { RunnableGraphsFailInside(caps, g, s, n - 1); }
  }

  /** The adapter of operation k, run in the state it found, handed back every output it declares. */
  predicate ReturnsDeclared(caps: seq<Capability>, g: Graph, s: Store, k: nat)
    requires k < |g.ops|
  {
    var before, cap := RunOps(caps, g, s, k), Runnable(caps, g, g.ops[k]);
    before.Ok? && cap.Some? ==>
      var result := Invoke(cap.value.adapter, before.value);
      result.Output? && result.output.Fields? ==> forall out :: out in g.ops[k].outputs ==> out in result.output.fields
  }

  /** Whatever the plan counts as supplied before operation n is in the store when it starts. */
  lemma {:induction false} SuppliedIsStored(caps: seq<Capability>, g: Graph, s: Store, n: nat)
    requires n <= |g.ops| && RunOps(caps, g, s, n).Ok?
    requires forall k {:trigger ReturnsDeclared(caps, g, s, k)} :: 0 <= k < n ==> ReturnsDeclared(caps, g, s, k)
    ensures Supplied(s.Keys, g.ops, n) <= RunOps(caps, g, s, n).value.Keys
  {
    if n > 0 {
      SuppliedIsStored(caps, g, s, n - 1);
      assert ReturnsDeclared(caps, g, s, n - 1);
    }
  }

  // ---- How a run ends, from its parts ----

  /** The parameters up to position i are all named. */
  predicate Reached(params: seq<Parameter>, i: nat) {
    i < |params| && forall j :: 0 <= j <= i ==> params[j].Named?
  }

  /** A parameter of this name comes before any catch-all, or there is a catch-all. */
  ghost predicate Wanted(params: seq<Parameter>, key: string) {
    AnyKeywords in params || exists i: nat :: Reached(params, i) && params[i].name == key
  }

  ghost predicate Defaults(params: seq<Parameter>, key: string, v: Value) {
    exists i: nat :: Reached(params, i) && params[i] == Named(key, Some(v))
  }

  /**
   The arguments of a call by name: what the store has under a parameter's name, with a catch-all everything it has,
   and a default only for what it does not have.
   */
  ghost predicate Matched(params: seq<Parameter>, s: Store, args: Store) {
    forall key :: MatchedAt(params, s, args, key)
  }

  ghost predicate MatchedAt(params: seq<Parameter>, s: Store, args: Store, key: string) {
    if key in s then (key in args <==> Wanted(params, key)) && (key in args ==> args[key] == s[key])
    else
      && (key in args <==> exists v :: Defaults(params, key, v))
      && (key in args ==> Defaults(params, key, args[key]))
  }

  /** What calling an adapter on a store comes to. */
  ghost predicate Returns(a: Adapter, s: Store, result: CallResult) {
    if a.signature.None? then result == a.byState(s)
    else exists args :: Matched(a.signature.value, s, args) && result == FirstOutput(a, args, s)
  }

  function FirstOutput(a: Adapter, args: Store, s: Store): CallResult {
    if a.byName(args).Output? then a.byName(args) else a.byState(s)
  }

  /** The capability bound to an operation, registered and of an executable kind and lifecycle. */
  ghost predicate BoundTo(caps: seq<Capability>, g: Graph, op: Operation, cap: Capability) {
    && op.id in g.bindings && cap in caps && cap.id == g.bindings[op.id]
    && cap.kind in {RealPhysicalAdapter, VerifiedExternalAdapter}
    && cap.lifecycle in {VerifiedForTask, ProvisionallyAvailable, ReuseVerified, Lifecycle.Promoted}
  }

  ghost predicate Judges(cap: Capability, out: AdapterOutput, v: CheckResult) {
    v == match cap.verifier case None => Passes case Some(verifier) => verifier(out)
  }

  predicate Writes(out: AdapterOutput, declared: seq<string>, key: string, v: Value) {
    match out case Fields(fields) => key in fields && fields[key] == v case Scalar(w) => key in declared && v == w
  }

  /** The store after an output: its fields, or one value under every declared name, and else what was there. */
  ghost predicate Stored(out: AdapterOutput, declared: seq<string>, before: Store, after: Store) {
    forall key, v :: StoredAt(out, declared, before, after, key, v)
  }

  ghost predicate StoredAt(
      out: AdapterOutput, declared: seq<string>, before: Store, after: Store, key: string, v: Value)
  {
    (key in after && after[key] == v) <==>
    Writes(out, declared, key, v) || (key in before && before[key] == v && forall w :: !Writes(out, declared, key, w))
  }

  /** One operation run with this capability, from one store to its end. */
  ghost predicate EndsWith(
      cap: Capability, op: Operation, before: Store, result: CallResult, r: Result<Store, Failure>)
  {
    && Returns(cap.adapter, before, result)
    && match result
       case Raised(error) => r == Err(ExecutionError(op.id, error))
       case Output(out) =>
         || (r.Ok? && Judges(cap, out, Passes) && Stored(out, op.outputs, before, r.value))
         || (r == Err(CapabilityVerificationFailed(op.id)) && Judges(cap, out, Fails))
         || (r == Err(VerifierRaised(op.id)) && Judges(cap, out, CheckRaised))
  }

  ghost predicate OpEnds(
      caps: seq<Capability>, g: Graph, op: Operation, before: Store, r: Result<Store, Failure>)
  {
    || (r == Err(CapabilityUnauthorized(op.id)) && forall cap :: cap in caps ==> !BoundTo(caps, g, op, cap))
    || (exists cap, result :: BoundTo(caps, g, op, cap) && EndsWith(cap, op, before, result, r))
  }

  /** The stores a run passes through, each operation leading from one to the next. */
  ghost predicate Passage(caps: seq<Capability>, g: Graph, s: Store, stores: seq<Store>) {
    && 0 < |stores| <= |g.ops| + 1 && stores[0] == s
    && forall k :: 0 <= k < |stores| - 1 ==> Leads(caps, g, stores, k)
  }

  ghost predicate Leads(caps: seq<Capability>, g: Graph, stores: seq<Store>, k: nat) {
    k + 1 < |stores| && k < |g.ops| && OpEnds(caps, g, g.ops[k], stores[k], Ok(stores[k + 1]))
  }

  ghost predicate RefusesFirst(gates: seq<Contract>, s: Store, j: nat) {
    j < |gates| && !gates[j].validator(s) && forall i :: 0 <= i < j ==> gates[i].validator(s)
  }

  ghost predicate GatesEnd(g: Graph, last: Store, r: ExecutionResult) {
    match r
    case Success(final, trace) =>
      && final == last && (forall gate :: gate in g.gates ==> gate.validator(last))
      && |trace| == |g.ops| && forall k :: 0 <= k < |trace| ==> trace[k] == g.ops[k].id
    case Failure(failure) =>
      exists j: nat :: RefusesFirst(g.gates, last, j) && failure == GateFailed(g.gates[j].id)
  }

  /** A run ends in the first failing operation, or else in the first refusing gate, or else in success. */
  ghost predicate EndsAt(caps: seq<Capability>, g: Graph, stores: seq<Store>, r: ExecutionResult) {
    && 0 < |stores| <= |g.ops| + 1
    && var (n, last) := (|stores| - 1, stores[|stores| - 1]);
       if n < |g.ops| then r.Failure? && OpEnds(caps, g, g.ops[n], last, Err(r.failure)) else GatesEnd(g, last, r)
  }

  ghost predicate RunEnds(caps: seq<Capability>, g: Graph, s: Store, r: ExecutionResult) {
    exists stores :: Passage(caps, g, s, stores) && EndsAt(caps, g, stores, r)
  }

  lemma {:induction false} ReachedTail(params: seq<Parameter>, i: nat)
    requires params != [] && params[0].Named?
    ensures Reached(params, i + 1) <==> Reached(params[1..], i)
    ensures Reached(params, i + 1) ==> params[i + 1] == params[1..][i]
  {
    if Reached(params[1..], i) {
      forall j | 0 <= j <= i + 1 ensures params[j].Named? {
        if j > 0 { assert params[1..][j - 1].Named?; }
      }
    }
    if Reached(params, i + 1) {
      forall j | 0 <= j <= i ensures params[1..][j].Named? { assert params[j + 1].Named?; }
    }
  }

  lemma {:induction false} WantedTail(params: seq<Parameter>, key: string)
    requires params != [] && params[0].Named?
    ensures Wanted(params, key) <==> params[0].name == key || Wanted(params[1..], key)
  {
    assert params == [params[0]] + params[1..];
    if params[0].name == key { assert Reached(params, 0); }
    if i: nat :| Reached(params[1..], i) && params[1..][i].name == key {
      ReachedTail(params, i);
      assert params[i + 1].name == key;
    }
    if i: nat :| Reached(params, i) && params[i].name == key {
      if i > 0 {
        ReachedTail(params, i - 1);
        assert params[1..][i - 1].name == key;
      }
    }
  }

  lemma {:induction false} DefaultsTail(params: seq<Parameter>, key: string, v: Value)
    requires params != [] && params[0].Named?
    ensures Defaults(params, key, v) <==> params[0] == Named(key, Some(v)) || Defaults(params[1..], key, v)
  {
    if params[0] == Named(key, Some(v)) { assert Reached(params, 0); }
    if i: nat :| Reached(params[1..], i) && params[1..][i] == Named(key, Some(v)) {
      ReachedTail(params, i);
      assert params[i + 1] == Named(key, Some(v));
    }
    if i: nat :| Reached(params, i) && params[i] == Named(key, Some(v)) {
      if i > 0 {
        ReachedTail(params, i - 1);
        assert params[1..][i - 1] == Named(key, Some(v));
      }
    }
  }

  lemma {:induction false} PresentArguments(params: seq<Parameter>, s: Store, args: Store, key: string)
    requires key in s && (key in args ==> args[key] == s[key])
    ensures var r := Arguments(params, s, args);
            (key in r <==> key in args || Wanted(params, key)) && (key in r ==> r[key] == s[key])
  {
    if params != [] && params[0].Named? {
      WantedTail(params, key);
      var (name, default) := (params[0].name, params[0].default);
      PresentArguments(params[1..], s, if name in s then args[name := s[name]]
                                       else if default.Some? then args[name := default.value] else args, key);
    }
  }

  lemma {:induction false} AbsentArguments(params: seq<Parameter>, s: Store, args: Store, key: string)
    requires key !in s
    ensures var r := Arguments(params, s, args);
            && (key in r <==> key in args || exists v :: Defaults(params, key, v))
            && (key in r ==> Defaults(params, key, r[key]) || (key in args && r[key] == args[key]))
  {
    if params != [] {
      if params[0].Named? {
        forall v { DefaultsTail(params, key, v); }
        var (name, default) := (params[0].name, params[0].default);
        AbsentArguments(params[1..], s, if name in s then args[name := s[name]]
                                        else if default.Some? then args[name := default.value] else args, key);
        if default.Some? { DefaultsTail(params, name, default.value); }
      }
    }
  }

  /** The arguments gathered are those the signature asks for. */
  lemma {:induction false} ArgumentsMatch(params: seq<Parameter>, s: Store)
    ensures Matched(params, s, Arguments(params, s, map[]))
  {
    forall key ensures MatchedAt(params, s, Arguments(params, s, map[]), key) {
      if key in s { PresentArguments(params, s, map[], key); } else { AbsentArguments(params, s, map[], key); }
    }
  }

  lemma {:induction false} InvokeReturns(a: Adapter, s: Store)
    ensures Returns(a, s, Invoke(a, s))
  {
    if a.signature.Some? {
      ArgumentsMatch(a.signature.value, s);
      assert Invoke(a, s) == FirstOutput(a, Arguments(a.signature.value, s, map[]), s);
    }
  }

  lemma {:induction false} RunnableIsBound(caps: seq<Capability>, g: Graph, op: Operation)
    requires DistinctCapabilities(caps)
    ensures match Runnable(caps, g, op)
            case Some(cap) => BoundTo(caps, g, op, cap)
            case None => forall cap :: cap in caps ==> !BoundTo(caps, g, op, cap)
  {
    forall cap | cap in caps && BoundTo(caps, g, op, cap) ensures Runnable(caps, g, op) == Some(cap) {
      LookupMember(caps, cap);
    }
  }

  lemma {:induction false} WriteStores(out: AdapterOutput, declared: seq<string>, s: Store)
    ensures Stored(out, declared, s, Write(out, declared, s))
  {
    var after := Write(out, declared, s);
    forall key, v ensures StoredAt(out, declared, s, after, key, v) {
      match out
      case Fields(fields) => if key in fields { assert Writes(out, declared, key, fields[key]); }
      case Scalar(w) => if key in declared { assert Writes(out, declared, key, w); }
    }
  }

  /** Each operation ends as its parts say: called as bound, checked by its own verifier, its output stored. */
  lemma {:induction false} RunOpEnds(caps: seq<Capability>, g: Graph, op: Operation, s: Store)
    requires DistinctCapabilities(caps)
    ensures OpEnds(caps, g, op, s, RunOp(caps, g, op, s))
  {
    RunnableIsBound(caps, g, op);
    var r := Runnable(caps, g, op);
    if r.Some? {
      var (cap, result) := (r.value, Invoke(r.value.adapter, s));
      InvokeReturns(cap.adapter, s);
      if result.Output? { WriteStores(result.output, op.outputs, s); }
      assert EndsWith(cap, op, s, result, RunOp(caps, g, op, s));
    }
  }

  lemma {:induction false} RunPasses(caps: seq<Capability>, g: Graph, s: Store, n: nat) returns (stores: seq<Store>)
    requires DistinctCapabilities(caps) && n <= |g.ops| && RunOps(caps, g, s, n).Ok?
    ensures Passage(caps, g, s, stores) && |stores| == n + 1 && stores[n] == RunOps(caps, g, s, n).value
  {
    if n == 0 { return [s]; }
    var before := RunPasses(caps, g, s, n - 1);
    stores := before + [RunOps(caps, g, s, n).value];
    RunOpEnds(caps, g, g.ops[n - 1], before[n - 1]);
    forall k | 0 <= k < n ensures Leads(caps, g, stores, k) {
      if k < n - 1 { assert Leads(caps, g, before, k); }
    }
  }

  lemma {:induction false} FirstFailure(caps: seq<Capability>, g: Graph, s: Store, n: nat) returns (k: nat)
    requires n <= |g.ops| && RunOps(caps, g, s, n).Err?
    ensures k < n && RunOps(caps, g, s, k).Ok?
    ensures RunOp(caps, g, g.ops[k], RunOps(caps, g, s, k).value) == Err(RunOps(caps, g, s, n).error)
  {
    if RunOps(caps, g, s, n - 1).Ok? { k := n - 1; } else { k := FirstFailure(caps, g, s, n - 1); }
  }

  lemma {:induction false} FirstRefusalAt(gates: seq<Contract>, s: Store)
    ensures FirstRefusal(gates, s).Some? ==>
              exists j: nat :: RefusesFirst(gates, s, j) && FirstRefusal(gates, s) == Some(gates[j])
  {
    if FirstRefusal(gates, s).Some? {
      if gates[0].validator(s) {
        FirstRefusalAt(gates[1..], s);
        var j: nat :| RefusesFirst(gates[1..], s, j) && FirstRefusal(gates[1..], s) == Some(gates[1..][j]);
        forall i | 0 <= i < j + 1 ensures gates[i].validator(s) { if i > 0 { assert gates[1..][i - 1].validator(s); } }
        assert RefusesFirst(gates, s, j + 1);
      } else {
        assert RefusesFirst(gates, s, 0);
      }
    }
  }

  /** The whole run ends as its parts say. */
  lemma {:induction false} ExecuteEnds(caps: seq<Capability>, g: Graph, s: Store)
    requires DistinctCapabilities(caps)
    ensures RunEnds(caps, g, s, Execute(caps, g, s))
  {
    var (n, r) := (|g.ops|, Execute(caps, g, s));
    if RunOps(caps, g, s, n).Ok? {
      var stores := RunPasses(caps, g, s, n);
      FirstRefusalAt(g.gates, stores[n]);
      assert EndsAt(caps, g, stores, r);
    } else {
      var k := FirstFailure(caps, g, s, n);
      var stores := RunPasses(caps, g, s, k);
      RunOpEnds(caps, g, g.ops[k], stores[k]);
      assert EndsAt(caps, g, stores, r);
    }
  }

  class ExecutionGraphCompiler {
    const registry: CapabilityRegistry

    constructor (registry: CapabilityRegistry)
      ensures this.registry == registry
    {
      this.registry := registry;
    }

    method Compile(
        adequate: bool, decomposition: Decomposition.DecompositionProof, closure: Option<Closure.ClosureReport>,
                   ops: seq<Operation>, contracts: seq<Contract>, bindings: seq<Binding>)
        returns (r: Result<Graph, CompileError>)
      ensures !adequate ==> r == Err(ObjectiveInadequate)
      ensures adequate && closure.Some? && !closure.value.closed ==> r == Err(ClosureDeficit)
      ensures adequate && (closure.Some? ==> closure.value.closed) && !decomposition.status.Satisfied? ==>
                r == Err(DecompositionIncomplete)
      ensures adequate && (closure.Some? ==> closure.value.closed) && decomposition.status.Satisfied? ==>
                r == if forall k :: 0 <= k < |ops| ==> Sealable(ops[k], bindings, registry.caps)
                     then Ok(Graph(ops, SealedBindings(ops, bindings, |ops|), contracts))
                     else Err(ClosureDeficit)
    {
      if !adequate { return Err(ObjectiveInadequate); }
      if closure.Some? && !closure.value.closed { return Err(ClosureDeficit); }
      if !decomposition.status.Satisfied? { return Err(DecompositionIncomplete); }
      var sealed: map<string, string> := map[];
      for i := 0 to |ops|
        invariant sealed == SealedBindings(ops, bindings, i)
        invariant forall k :: 0 <= k < i ==> Sealable(ops[k], bindings, registry.caps)
      {
        var id := SealedBinding(ops[i], bindings);
        if id == "" { return Err(ClosureDeficit); }
        var cap := Lookup(registry.caps, id);
        if cap.None? || !cap.value.Authorized() { return Err(ClosureDeficit); }
        sealed := sealed[ops[i].id := cap.value.id];
      }
      r := Ok(Graph(ops, sealed, contracts));
    }

    method ExecuteGraph(g: Graph, initial: Store) returns (r: ExecutionResult)
      ensures r == Execute(registry.caps, g, initial)
      ensures DistinctCapabilities(registry.caps) ==> RunEnds(registry.caps, g, initial, r)
    {
      if DistinctCapabilities(registry.caps) { ExecuteEnds(registry.caps, g, initial); }
      var ran := RunOperations(g, initial);
      match ran
      case Err(failure) => return Failure(failure);
      case Ok(store) =>
        var refused := CheckGates(g.gates, store);
        match refused
        case Some(gate) => return Failure(GateFailed(gate.id));
        case None => return Success(store, seq(|g.ops|, i requires 0 <= i < |g.ops| => g.ops[i].id));
    }

    method RunOperations(g: Graph, initial: Store) returns (r: Result<Store, Failure>)
      ensures r == RunOps(registry.caps, g, initial, |g.ops|)
    {
      var store := initial;
      for i := 0 to |g.ops|
        invariant RunOps(registry.caps, g, initial, i) == Ok(store)
      {
        var after := RunOperation(g, g.ops[i], store);
        if after.Err? {
          FailureIsFinal(registry.caps, g, initial, i + 1, |g.ops|);
          return after;
        }
        store := after.value;
      }
      r := Ok(store);
    }

    method CheckGates(gates: seq<Contract>, store: Store) returns (refused: Option<Contract>)
      ensures refused == FirstRefusal(gates, store)
    {
      for i := 0 to |gates|
        invariant FirstRefusal(gates, store) == FirstRefusal(gates[i..], store)
      {
        assert gates[i..][1..] == gates[i + 1..];
        if !gates[i].validator(store) { return Some(gates[i]); }
      }
      refused := None;
    }

    method RunOperation(g: Graph, op: Operation, store: Store) returns (r: Result<Store, Failure>)
      ensures r == RunOp(registry.caps, g, op, store)
    {
      var cap := Runnable(registry.caps, g, op);
      if cap.None? { return Err(CapabilityUnauthorized(op.id)); }
      var result := Call(cap.value.adapter, store);
      match result
      case Raised(error) => return Err(ExecutionError(op.id, error));
      case Output(out) =>
        var after := Write(out, op.outputs, store);
        match Check(cap.value, out)
        case Passes => return Ok(after);
        case Fails => return Err(CapabilityVerificationFailed(op.id));
        case CheckRaised => return Err(VerifierRaised(op.id));
    }

    method Call(a: Adapter, store: Store) returns (result: CallResult)
      ensures result == Invoke(a, store)
    {
      if a.signature.Some? {
        var args := GatherArguments(a.signature.value, store);
        result := a.byName(args);
        if result.Output? { return; }
      }
      result := a.byState(store);
    }

    method GatherArguments(params: seq<Parameter>, store: Store) returns (args: Store)
      ensures args == Arguments(params, store, map[])
      ensures Matched(params, store, args)
    {
      ArgumentsMatch(params, store);
      args := map[];
      for i := 0 to |params|
        invariant Arguments(params, store, map[]) == Arguments(params[i..], store, args)
      {
        assert params[i..][1..] == params[i + 1..];
        match params[i]
        case AnyKeywords => return args + store;
        case Named(name, default) =>
          if name in store {
            args := args[name := store[name]];
          } else if default.Some? {
            args := args[name := default.value];
          }
      }
    }
  }
}
