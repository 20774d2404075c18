/** Authorise, consume, execute: the store's authorizations table and the two processes that share it. */
module Authorization {
  import opened Common

  /** An operation's canonical hash is ideal: the operation itself. */
  datatype Operation = Operation(target: string, body: string)

  datatype Proposal = Proposal(tx: string, attempt: string, capability: string, key: string, op: Operation)

  datatype Denial = CapabilityNotPermitted | BadTarget | KeyTaken

  datatype Decision = Denied(why: Denial) | Authorized(id: string, hash: Operation)

  datatype AuthState = Issued | Spent

  datatype Row = Row(tx: string, attempt: string, hash: Operation, key: string, state: AuthState)

  /** What happened to the table and to the outside world, in order. */
  datatype Event = Granted(id: string, key: string) | Consumed(id: string)
      | Ran(id: string, hash: Operation, op: Operation)

  datatype Store = Store(txs: map<string, nat>, auths: map<string, Row>, history: seq<Event>)

  // ---- Target paths ----

  /** The parts of a path between slashes. */
  function Parts(path: string): (parts: seq<string>)
    ensures |parts| > 0
  {
    if path == "" then [""]
    else
      var rest := Parts(path[1..]);
      if path[0] == '/' then [""] + rest else [[path[0]] + rest[0]] + rest[1..]
  }

  function JoinParts(parts: seq<string>): string
    requires |parts| > 0
  {
    if |parts| == 1 then parts[0] else parts[0] + "/" + JoinParts(parts[1..])
  }

  /** The parts hold no slash and joined by slashes give the path back. */
  lemma {:induction false} PartsSplit(path: string)
    ensures JoinParts(Parts(path)) == path
    ensures forall part :: part in Parts(path) ==> '/' !in part
  {
    if path != "" {
      var rest := Parts(path[1..]);
      PartsSplit(path[1..]);
      assert rest == [rest[0]] + rest[1..];
      if path[0] == '/' {
        assert ([""] + rest)[1..] == rest;
      } else {
        assert ([[path[0]] + rest[0]] + rest[1..])[1..] == rest[1..];
      }
    }
  }

  predicate SafeTarget(target: string) {
    && ".." !in Parts(target)
    && !("/" <= target) && !("\\" <= target)
    && ':' !in target && '\0' !in target
  }

  /** This part stands at position i, between slashes or the ends of the path. */
  predicate PartAt(path: string, i: nat, part: string) {
    && i + |part| <= |path| && path[i..i + |part|] == part && '/' !in part
    && (i == 0 || path[i - 1] == '/') && (i + |part| == |path| || path[i + |part|] == '/')
  }

  lemma {:induction false} PartAtTail(path: string, i: nat, part: string)
    requires path != "" && i > 0
    ensures PartAt(path, i, part) <==>
            PartAt(path[1..], i - 1, part) && (i == 1 ==> path[0] == '/')
  {
    if i + |part| <= |path| { assert path[i..i + |part|] == path[1..][i - 1..i - 1 + |part|]; }
  }

  lemma {:induction false} FirstPartExactly(path: string, part: string)
    ensures PartAt(path, 0, part) <==> part == Parts(path)[0]
  {
    if path != "" {
      if path[0] == '/' {
        assert part != "" ==> part[0] in part;
      } else {
        var rest := path[1..];
        FirstPartExactly(rest, if part == "" then "" else part[1..]);
        if part != "" {
          assert part == [part[0]] + part[1..];
          if |part| <= |path| { assert path[..|part|] == [path[0]] + rest[..|part| - 1]; }
          if PartAt(path, 0, part) { assert rest[0..|part| - 1] == part[1..]; }
        }
      }
    }
  }

  lemma {:induction false} LaterPartsExactly(path: string, part: string)
    ensures part in Parts(path)[1..] <==> exists i: nat :: i > 0 && PartAt(path, i, part)
  {
    if path != "" {
      var rest := path[1..];
      LaterPartsExactly(rest, part);
      FirstPartExactly(rest, part);
      assert Parts(rest) == [Parts(rest)[0]] + Parts(rest)[1..];
      assert Parts(path)[1..] == if path[0] == '/' then Parts(rest) else Parts(rest)[1..];
      forall i: nat | i > 0 { PartAtTail(path, i, part); }
      if path[0] == '/' && PartAt(rest, 0, part) { assert PartAt(path, 1, part); }
      if i: nat :| i > 0 && PartAt(rest, i, part) { PartAtTail(path, i + 1, part); assert PartAt(path, i + 1, part); }
      if i: nat :| i > 0 && PartAt(path, i, part) { assert PartAt(rest, i - 1, part); }
    }
  }

  /**
   A target is safe exactly when it does not start with a slash of either kind, holds no colon and no NUL, and
   nowhere has two dots between slashes.
   */
  lemma {:induction false} SafeExactly(target: string)
    ensures SafeTarget(target) <==>
            && (target == "" || target[0] !in {'/', '\\'})
            && (forall k :: 0 <= k < |target| ==> target[k] !in {':', '\0'})
            && (forall i: nat :: !PartAt(target, i, ".."))
  {
    FirstPartExactly(target, "..");
    LaterPartsExactly(target, "..");
    assert Parts(target) == [Parts(target)[0]] + Parts(target)[1..];
    if i: nat :| PartAt(target, i, "..") { assert i == 0 || i > 0; }
  }

  // ---- Table operations ----

  predicate KeyIssued(s: Store, key: string) {
    exists id :: id in s.auths && s.auths[id].key == key
  }

  /** The insert fails on a known id or key. */
  function Grant(s: Store, id: string, row: Row): Option<Store> {
    if id in s.auths || KeyIssued(s, row.key) then None
    else Some(s.(auths := s.auths[id := row], history := s.history + [Granted(id, row.key)]))
  }

  /** The conditional update: one AUTHORIZED row becomes CONSUMED, or nothing changes. */
  function Consume(s: Store, id: string): Option<Store> {
    if id in s.auths && s.auths[id].state == Issued
    then Some(s.(auths := s.auths[id := s.auths[id].(state := Spent)], history := s.history + [Consumed(id)]))
    else None
  }

  /** Recording a transaction never fails: a known one goes to its next revision. */
  function Recorded(txs: map<string, nat>, tx: string): map<string, nat> {
    txs[tx := if tx in txs then txs[tx] + 1 else 1]
  }

  // ---- The two processes, step by step ----

  datatype Rejection = NotAuthorized | HashMismatch | NotConsumable

  datatype Receipt = Rejected(why: Rejection) | Succeeded(output: string) | AdapterFailed(error: string)

  type Adapter = Operation -> Result<string, string>

  function ReceiptOf(result: Result<string, string>): Receipt {
    match result
    case Ok(output) => Succeeded(output)
    case Err(error) => AdapterFailed(error)
  }

  datatype Proc =
    | Screening(p: Proposal, id: string)
    | CheckingKey(p: Proposal, id: string)
    | CheckingTx(p: Proposal, id: string)
    | InsertingTx(p: Proposal, id: string)
    | InsertingGrant(p: Proposal, id: string)
    | Answered(p: Proposal, d: Decision)
    | Comparing(d: Decision, op: Operation)
    | Consuming(id: string, hash: Operation, op: Operation)
    | Acting(id: string, hash: Operation, op: Operation)
    | Finished(r: Receipt)
    | Gone

  function Rank(proc: Proc): nat {
    match proc
    case Screening(_, _) => 5
    case CheckingKey(_, _) => 4
    case CheckingTx(_, _) => 3
    case InsertingTx(_, _) => 2
    case InsertingGrant(_, _) => 1
    case Comparing(_, _) => 3
    case Consuming(_, _, _) => 2
    case Acting(_, _, _) => 1
    case _ => 0
  }

  /** One atomic step: a check, a query, or one statement on the shared table. */
  function Step(proc: Proc, s: Store, allowed: set<string>, adapter: Adapter): (Proc, Store) {
    match proc
    case Screening(p, id) =>
      if p.capability !in allowed then (Answered(p, Denied(CapabilityNotPermitted)), s)
      else if !SafeTarget(p.op.target) then (Answered(p, Denied(BadTarget)), s)
      else (CheckingKey(p, id), s)
    case CheckingKey(p, id) =>
      if KeyIssued(s, p.key) then (Answered(p, Denied(KeyTaken)), s) else (CheckingTx(p, id), s)
    case CheckingTx(p, id) =>
      (if p.tx in s.txs then InsertingGrant(p, id) else InsertingTx(p, id), s)
    case InsertingTx(p, id) =>
      (InsertingGrant(p, id), s.(txs := Recorded(s.txs, p.tx)))
    case InsertingGrant(p, id) =>
      var granted := Grant(s, id, Row(p.tx, p.attempt, p.op, p.key, Issued));
      if granted.None? then (Gone, s) else (Answered(p, Authorized(id, p.op)), granted.value)
    case Comparing(d, op) =>
      if d.Denied? then (Finished(Rejected(NotAuthorized)), s)
      else if op != d.hash then (Finished(Rejected(HashMismatch)), s)
      else (Consuming(d.id, d.hash, op), s)
    case Consuming(id, hash, op) =>
      var consumed := Consume(s, id);
      if consumed.None? then (Finished(Rejected(NotConsumable)), s) else (Acting(id, hash, op), consumed.value)
    case Acting(id, hash, op) =>
      (Finished(ReceiptOf(adapter(op))), s.(history := s.history + [Ran(id, hash, op)]))
    case _ => (proc, s)
  }

  /** A process left alone until it is done. */
  function Solo(proc: Proc, s: Store, allowed: set<string>, adapter: Adapter): (Proc, Store)
    decreases Rank(proc)
  {
    if Rank(proc) == 0 then (proc, s)
    else
      var (next, after) := Step(proc, s, allowed, adapter);
      Solo(next, after, allowed, adapter)
  }

  lemma {:induction false} SoloStep(
      proc: Proc, s: Store, allowed: set<string>, adapter: Adapter) returns (next: Proc, after: Store)
    ensures (next, after) == Step(proc, s, allowed, adapter)
    ensures Solo(proc, s, allowed, adapter) == Solo(next, after, allowed, adapter)
    ensures Rank(next) == 0 ==> Solo(proc, s, allowed, adapter) == (next, after)
  {
    next := Step(proc, s, allowed, adapter).0;
    after := Step(proc, s, allowed, adapter).1;
  }

  /** Where a proposal evaluated alone ends; the cases are looked at in this order. */
  predicate ProposalEnds(p: Proposal, id: string, s: Store, allowed: set<string>, answer: Proc, after: Store) {
    var txs := if p.tx in s.txs then s.txs else s.txs[p.tx := 1];
    if p.capability !in allowed then answer == Answered(p, Denied(CapabilityNotPermitted)) && after == s
    else if !SafeTarget(p.op.target) then answer == Answered(p, Denied(BadTarget)) && after == s
    else if exists other :: other in s.auths && s.auths[other].key == p.key
    then answer == Answered(p, Denied(KeyTaken)) && after == s
    else if id in s.auths then answer == Gone && after == s.(txs := txs)
    else
      && answer == Answered(p, Authorized(id, p.op))
      && after == Store(txs, s.auths[id := Row(p.tx, p.attempt, p.op, p.key, Issued)],
                        s.history + [Granted(id, p.key)])
  }

  /** Alone, a proposal is denied for the first reason there is, or authorised for exactly its operation. */
  lemma {:induction false} SoloProposalExactly(
      p: Proposal, id: string, s: Store, allowed: set<string>, adapter: Adapter)
    ensures var (answer, after) := Solo(Screening(p, id), s, allowed, adapter);
            ProposalEnds(p, id, s, allowed, answer, after)
  {
    var p1, s1 := SoloStep(Screening(p, id), s, allowed, adapter);
    if p1.CheckingKey? {
      var p2, s2 := SoloStep(p1, s1, allowed, adapter);
      if !KeyIssued(s, p.key) {
        var p3, s3 := SoloStep(p2, s2, allowed, adapter);
        var p4, s4 := SoloStep(p3, s3, allowed, adapter);
        if p.tx !in s.txs {
          assert KeyIssued(s4, p.key) == KeyIssued(s, p.key);
          var p5, s5 := SoloStep(p4, s4, allowed, adapter);
        }
      }
    }
  }

  /** Where an execution alone ends: compared, consumed, acted on, and answered with what the adapter answers. */
  predicate ExecutionEnds(d: Decision, op: Operation, s: Store, adapter: Adapter, r: Receipt, after: Store) {
    if !d.Authorized? then r == Rejected(NotAuthorized) && after == s
    else if op != d.hash then r == Rejected(HashMismatch) && after == s
    else if d.id !in s.auths || s.auths[d.id].state != Issued then r == Rejected(NotConsumable) && after == s
    else
      && (match adapter(op) case Ok(output) => r == Succeeded(output) case Err(error) => r == AdapterFailed(error))
      && after == Store(s.txs, s.auths[d.id := s.auths[d.id].(state := Spent)],
                        s.history + [Consumed(d.id)] + [Ran(d.id, op, op)])
  }

  /** Alone, an executor acts exactly on an unspent authorization with the hash it was handed. */
  lemma {:induction false} SoloExecutionExactly(
      d: Decision, op: Operation, s: Store, allowed: set<string>, adapter: Adapter)
    ensures var (done, after) := Solo(Comparing(d, op), s, allowed, adapter);
            done.Finished? && ExecutionEnds(d, op, s, adapter, done.r, after)
  {
    var p1, s1 := SoloStep(Comparing(d, op), s, allowed, adapter);
    if p1.Consuming? {
      var p2, s2 := SoloStep(p1, s1, allowed, adapter);
      if p2.Acting? { var p3, s3 := SoloStep(p2, s2, allowed, adapter); }
    }
  }

  class ForgeStore {
    var state: Store

    constructor ()
      ensures state == Store(map[], map[], [])
    {
      state := Store(map[], map[], []);
    }

    method HasKey(key: string) returns (found: bool)
      ensures found == KeyIssued(state, key)
    {
      found := exists id :: id in state.auths && state.auths[id].key == key;
    }

    /** An upsert: a new transaction starts at revision one, a known one moves on. */
    method RecordTransaction(tx: string)
      modifies this
      ensures state == old(state).(txs := Recorded(old(state).txs, tx))
    {
      var revision := 1;
      if tx in state.txs { revision := state.txs[tx] + 1; }
      state := state.(txs := state.txs[tx := revision]);
    }

    method RecordAuthorization(id: string, row: Row) returns (ok: bool)
      modifies this
      ensures ok == Grant(old(state), id, row).Some?
      ensures state == if ok then Grant(old(state), id, row).value else old(state)
    {
      var taken := HasKey(row.key);
      ok := id !in state.auths && !taken;
      if ok { state := state.(auths := state.auths[id := row], history := state.history + [Granted(id, row.key)]); }
    }

    method ConsumeAuthorization(id: string) returns (consumed: bool)
      modifies this
      ensures consumed == Consume(old(state), id).Some?
      ensures state == if consumed then Consume(old(state), id).value else old(state)
    {
      consumed := id in state.auths && state.auths[id].state == Issued;
      if consumed {
        state := state.(auths := state.auths[id := state.auths[id].(state := Spent)],
            history := state.history + [Consumed(id)]);
      }
    }

    /** The side effect, made visible in the history. */
    method RunAdapter(id: string, hash: Operation, op: Operation, adapter: Adapter) returns (receipt: Receipt)
      modifies this
      ensures state == old(state).(history := old(state).history + [Ran(id, hash, op)])
      ensures receipt == ReceiptOf(adapter(op))
    {
      state := state.(history := state.history + [Ran(id, hash, op)]);
      receipt := ReceiptOf(adapter(op));
    }
  }

  /** What a process without a store answers: nothing is looked up, recorded or consumed. */
  function EvaluateStateless(p: Proposal, id: string, allowed: set<string>): Decision {
    if p.capability !in allowed then Denied(CapabilityNotPermitted)
    else if !SafeTarget(p.op.target) then Denied(BadTarget)
    else Authorized(id, p.op)
  }

  function ExecuteStateless(d: Decision, op: Operation, adapter: Adapter): Receipt {
    if d.Denied? then Rejected(NotAuthorized)
    else if op != d.hash then Rejected(HashMismatch)
    else ReceiptOf(adapter(op))
  }

  /** Without a store a proposal is answered as with one that knows neither its key nor its id. */
  lemma {:induction false} StatelessLikeFresh(
      p: Proposal, id: string, s: Store, allowed: set<string>, adapter: Adapter)
    requires !KeyIssued(s, p.key) && id !in s.auths
    ensures Solo(Screening(p, id), s, allowed, adapter).0 == Answered(p, EvaluateStateless(p, id, allowed))
  {
    SoloProposalExactly(p, id, s, allowed, adapter);
  }

  /** Without a store an authorised decision acts every time; with one it acts exactly as long as its row is unspent. */
  lemma {:induction false} StoreMakesTheDifference(
      d: Decision, op: Operation, s: Store, allowed: set<string>, adapter: Adapter)
    ensures var (done, _) := Solo(Comparing(d, op), s, allowed, adapter);
            done == Finished(ExecuteStateless(d, op, adapter)) <==>
            d.Denied? || op != d.hash || (d.id in s.auths && s.auths[d.id].state == Issued)
  {
    var p1, s1 := SoloStep(Comparing(d, op), s, allowed, adapter);
    if p1.Consuming? {
      var p2, s2 := SoloStep(p1, s1, allowed, adapter);
      if p2.Acting? { var p3, s3 := SoloStep(p2, s2, allowed, adapter); }
    }
  }

  class AuthorizationGate {
    const store: ForgeStore?
    const allowed: set<string>

    constructor (store: ForgeStore?, allowed: set<string>)
      ensures this.store == store && this.allowed == allowed
    {
      this.store, this.allowed := store, allowed;
    }

    /** `id` is the freshly drawn authorization id. None is an exception. */
    method EvaluateProposal(p: Proposal, id: string, ghost adapter: Adapter) returns (d: Option<Decision>)
      modifies if store == null then {} else {store}
      ensures store != null ==>
                (if d.Some? then Answered(p, d.value) else Gone, store.state) ==
                Solo(Screening(p, id), old(store.state), allowed, adapter)
      ensures store != null ==>
                ProposalEnds(p, id, old(store.state), allowed,
                             if d.Some? then Answered(p, d.value) else Gone, store.state)
      ensures store == null ==> d == Some(EvaluateStateless(p, id, allowed))
    {
      if store != null { SoloProposalExactly(p, id, store.state, allowed, adapter); }
      if store == null {
        if p.capability !in allowed { return Some(Denied(CapabilityNotPermitted)); }
        if !SafeTarget(p.op.target) { return Some(Denied(BadTarget)); }
        return Some(Authorized(id, p.op));
      }
      ghost var p1, s1 := SoloStep(Screening(p, id), store.state, allowed, adapter);
      if p.capability !in allowed { return Some(Denied(CapabilityNotPermitted)); }
      if !SafeTarget(p.op.target) { return Some(Denied(BadTarget)); }
      ghost var p2, s2 := SoloStep(p1, s1, allowed, adapter);
      var taken := store.HasKey(p.key);
      if taken { return Some(Denied(KeyTaken)); }
      ghost var p3, s3 := SoloStep(p2, s2, allowed, adapter);
      ghost var p4, s4 := SoloStep(p3, s3, allowed, adapter);
      if p.tx !in store.state.txs {
        store.RecordTransaction(p.tx);
        p4, s4 := SoloStep(p4, s4, allowed, adapter);
      }
      var granted := store.RecordAuthorization(id, Row(p.tx, p.attempt, p.op, p.key, Issued));
      d := if granted then Some(Authorized(id, p.op)) else None;
    }
  }

  method ExecuteAction(
      d: Decision, op: Operation, adapter: Adapter, store: ForgeStore?,
      ghost allowed: set<string>) returns (receipt: Receipt)
    modifies if store == null then {} else {store}
    ensures store != null ==>
              (Finished(receipt), store.state) == Solo(Comparing(d, op), old(store.state), allowed, adapter)
    ensures store != null ==> ExecutionEnds(d, op, old(store.state), adapter, receipt, store.state)
    ensures store == null ==> receipt == ExecuteStateless(d, op, adapter)
  {
    if store != null { SoloExecutionExactly(d, op, store.state, allowed, adapter); }
    if d.Denied? {
      if store != null { ghost var p1, s1 := SoloStep(Comparing(d, op), store.state, allowed, adapter); }
      return Rejected(NotAuthorized);
    }
    if op != d.hash {
      if store != null { ghost var p1, s1 := SoloStep(Comparing(d, op), store.state, allowed, adapter); }
      return Rejected(HashMismatch);
    }
    if store == null { return ReceiptOf(adapter(op)); }
    ghost var p1, s1 := SoloStep(Comparing(d, op), store.state, allowed, adapter);
    ghost var p2, s2 := SoloStep(p1, s1, allowed, adapter);
    var consumed := store.ConsumeAuthorization(d.id);
    if !consumed { return Rejected(NotConsumable); }
    ghost var p3, s3 := SoloStep(p2, s2, allowed, adapter);
    receipt := store.RunAdapter(d.id, d.hash, op, adapter);
  }
}
