/** Any number of evaluators and executors interleaved on one store, with crashes and decisions nobody issued. */
module AuthorizationProtocol {
  import opened Common
  import opened Authorization

  datatype World = World(store: Store, procs: seq<Proc>)

  /** Executors may be started with any decision, issued or made up. */
  datatype Action = Propose(p: Proposal, id: string) | Submit(d: Decision, op: Operation) | Advance(i: nat)
      | Crash(i: nat)

  /** `allowed` and the adapters' answers may differ from step to step. */
  datatype Choice = Choice(action: Action, allowed: set<string>, adapter: Adapter)

  function Exec(w: World, c: Choice): World {
    match c.action
    case Propose(p, id) => w.(procs := w.procs + [Screening(p, id)])
    case Submit(d, op) => w.(procs := w.procs + [Comparing(d, op)])
    case Advance(i) =>
      if i >= |w.procs| then w
      else
        var (next, after) := Step(w.procs[i], w.store, c.allowed, c.adapter);
        World(after, w.procs[i := next])
    case Crash(i) => if i >= |w.procs| then w else w.(procs := w.procs[i := Gone])
  }

  function RunAll(w: World, cs: seq<Choice>): World
    decreases |cs|
  {
    if cs == [] then w else Exec(RunAll(w, cs[..|cs| - 1]), cs[|cs| - 1])
  }

  // ---- Histories ----

  predicate WasGranted(h: seq<Event>, id: string) {
    exists n :: 0 <= n < |h| && h[n].Granted? && h[n].id == id
  }

  predicate WasConsumed(h: seq<Event>, id: string) {
    exists n :: 0 <= n < |h| && h[n] == Consumed(id)
  }

  predicate WasRun(h: seq<Event>, id: string) {
    exists n :: 0 <= n < |h| && h[n].Ran? && h[n].id == id
  }

  predicate KeyGranted(h: seq<Event>, key: string) {
    exists n :: 0 <= n < |h| && h[n].Granted? && h[n].key == key
  }

  /** Event e is in order after history h. */
  predicate InOrder(h: seq<Event>, e: Event) {
    match e
    case Granted(id, key) => !WasGranted(h, id) && !KeyGranted(h, key)
    case Consumed(id) => WasGranted(h, id) && !WasConsumed(h, id)
    case Ran(id, hash, op) => WasConsumed(h, id) && !WasRun(h, id) && op == hash
  }

  /** One grant per id and key, then one consumption, then one run of the very operation that was compared. */
  ghost predicate Orderly(h: seq<Event>) {
    forall n {:trigger InOrder(h[..n], h[n])} :: 0 <= n < |h| ==> InOrder(h[..n], h[n])
  }

  /** The grant of an id names the key of its row. */
  ghost predicate Matches(h: seq<Event>, auths: map<string, Row>) {
    && (forall id :: id in auths ==> WasGranted(h, id))
    && (forall n :: 0 <= n < |h| && h[n].Granted? ==> h[n].id in auths && auths[h[n].id].key == h[n].key)
    && (forall id :: id in auths ==> (auths[id].state == Spent <==> WasConsumed(h, id)))
    && (forall id :: WasConsumed(h, id) ==> id in auths)
    && (forall id :: WasRun(h, id) ==> WasConsumed(h, id))
  }

  ghost predicate UniqueKeys(auths: map<string, Row>) {
    forall a, b :: a in auths && b in auths && auths[a].key == auths[b].key ==> a == b
  }

  ghost predicate StoreInv(s: Store) {
    Orderly(s.history) && Matches(s.history, s.auths) && UniqueKeys(s.auths)
  }

  /** What holds of one process wherever the others are. */
  ghost predicate ProcInv(proc: Proc, s: Store) {
    match proc
    case Consuming(_, hash, op) => op == hash
    case Acting(id, hash, op) => op == hash && WasConsumed(s.history, id) && !WasRun(s.history, id)
    case Answered(p, d) =>
      d.Authorized? ==>
        d.id in s.auths && s.auths[d.id].hash == d.hash == p.op && s.auths[d.id].key == p.key
    case _ => true
  }

  ghost predicate Inv(w: World) {
    && StoreInv(w.store)
    && (forall i :: 0 <= i < |w.procs| ==> ProcInv(w.procs[i], w.store))
    && (forall i, j :: 0 <= i < j < |w.procs| && w.procs[i].Acting? && w.procs[j].Acting? ==>
            w.procs[i].id != w.procs[j].id)
  }

  // ---- One more event ----

  lemma {:induction false} OneMore(h: seq<Event>, e: Event)
    ensures forall id :: WasGranted(h + [e], id) <==> WasGranted(h, id) || (e.Granted? && e.id == id)
    ensures forall id :: WasConsumed(h + [e], id) <==> WasConsumed(h, id) || e == Consumed(id)
    ensures forall id :: WasRun(h + [e], id) <==> WasRun(h, id) || (e.Ran? && e.id == id)
    ensures forall key :: KeyGranted(h + [e], key) <==> KeyGranted(h, key) || (e.Granted? && e.key == key)
  {
    var g := h + [e];
    assert forall n :: 0 <= n < |h| ==> g[n] == h[n];
    assert g[|h|] == e;
  }

  lemma {:induction false} OrderlyGrows(h: seq<Event>, e: Event)
    requires Orderly(h) && InOrder(h, e)
    ensures Orderly(h + [e])
  {
    var g := h + [e];
    forall n | 0 <= n < |g| ensures InOrder(g[..n], g[n]) {
      if n < |h| {
        assert g[..n] == h[..n] && InOrder(h[..n], h[n]);
      } else {
        assert g[..n] == h;
      }
    }
  }

  lemma {:induction false} GrantKeepsStore(s: Store, id: string, row: Row)
    requires StoreInv(s) && Grant(s, id, row).Some? && row.state == Issued
    ensures StoreInv(Grant(s, id, row).value)
  {
    var e := Granted(id, row.key);
    assert !KeyGranted(s.history, row.key);
    assert !WasGranted(s.history, id);
    OrderlyGrows(s.history, e);
    OneMore(s.history, e);
    MatchesGrant(s, id, row);
  }

  lemma {:induction false} MatchesGrant(s: Store, id: string, row: Row)
    requires Matches(s.history, s.auths) && id !in s.auths && row.state == Issued
    ensures Matches(s.history + [Granted(id, row.key)], s.auths[id := row])
  {
    OneMore(s.history, Granted(id, row.key));
  }

  lemma {:induction false} MatchesConsume(s: Store, id: string)
    requires Matches(s.history, s.auths) && id in s.auths
    ensures Matches(s.history + [Consumed(id)], s.auths[id := s.auths[id].(state := Spent)])
  {
    OneMore(s.history, Consumed(id));
    var after := s.history + [Consumed(id)];
    assert forall n :: 0 <= n < |after| && after[n].Granted? ==> n < |s.history| && after[n] == s.history[n];
  }

  lemma {:induction false} ConsumeKeepsStore(s: Store, id: string)
    requires StoreInv(s) && Consume(s, id).Some?
    ensures StoreInv(Consume(s, id).value)
    ensures !WasRun(s.history, id) && !WasConsumed(s.history, id)
  {
    OrderlyGrows(s.history, Consumed(id));
    MatchesConsume(s, id);
  }

  lemma {:induction false} RunKeepsStore(s: Store, id: string, hash: Operation, op: Operation)
    requires StoreInv(s) && InOrder(s.history, Ran(id, hash, op))
    ensures StoreInv(s.(history := s.history + [Ran(id, hash, op)]))
  {
    var e := Ran(id, hash, op);
    OrderlyGrows(s.history, e);
    OneMore(s.history, e);
    var after := s.history + [e];
    assert forall n :: 0 <= n < |after| && after[n].Granted? ==> n < |s.history| && after[n] == s.history[n];
  }

  // ---- One step of one process ----

  /** Rows keep their key and hash, are never removed, and only go from issued to spent; the history only grows. */
  ghost predicate StoreEvolves(s: Store, t: Store) {
    && s.history <= t.history && s.txs.Keys <= t.txs.Keys
    && (forall id :: id in s.auths ==>
          id in t.auths && t.auths[id].key == s.auths[id].key && t.auths[id].hash == s.auths[id].hash
          && (t.auths[id].state == s.auths[id].state || t.auths[id].state == Spent))
  }

  /** What a step of one process means for the others: a run touches only the id of the process that took it. */
  ghost predicate Harmless(proc: Proc, s: Store, t: Store) {
    forall id :: WasRun(t.history, id) && !WasRun(s.history, id) ==> proc.Acting? && proc.id == id
  }

  /** Everything one step promises. */
  ghost predicate StepPromise(proc: Proc, s: Store, next: Proc, t: Store) {
    && StoreInv(t) && ProcInv(next, t) && StoreEvolves(s, t) && Harmless(proc, s, t)
    && (forall id :: WasConsumed(s.history, id) ==> WasConsumed(t.history, id))
    && (next.Acting? ==> proc.Consuming? && proc.id == next.id && !WasConsumed(s.history, next.id))
  }

  lemma {:induction false} GrantStep(p: Proposal, id: string, s: Store, allowed: set<string>, adapter: Adapter)
    requires StoreInv(s)
    ensures var (next, t) := Step(InsertingGrant(p, id), s, allowed, adapter);
            StepPromise(InsertingGrant(p, id), s, next, t)
  {
    var row := Row(p.tx, p.attempt, p.op, p.key, Issued);
    if Grant(s, id, row).Some? {
      GrantKeepsStore(s, id, row);
      OneMore(s.history, Granted(id, p.key));
    }
  }

  lemma {:induction false} ConsumeStep(
      id: string, hash: Operation, op: Operation, s: Store, allowed: set<string>, adapter: Adapter)
    requires StoreInv(s) && op == hash
    ensures var (next, t) := Step(Consuming(id, hash, op), s, allowed, adapter);
            StepPromise(Consuming(id, hash, op), s, next, t)
  {
    if Consume(s, id).Some? {
      ConsumeKeepsStore(s, id);
      OneMore(s.history, Consumed(id));
    }
  }

  lemma {:induction false} ActStep(
      id: string, hash: Operation, op: Operation, s: Store, allowed: set<string>, adapter: Adapter)
    requires StoreInv(s) && InOrder(s.history, Ran(id, hash, op))
    ensures var (next, t) := Step(Acting(id, hash, op), s, allowed, adapter);
            StepPromise(Acting(id, hash, op), s, next, t)
  {
    RunKeepsStore(s, id, hash, op);
    OneMore(s.history, Ran(id, hash, op));
  }

  lemma {:induction false} QuietStep(proc: Proc, s: Store, allowed: set<string>, adapter: Adapter)
    requires StoreInv(s) && ProcInv(proc, s) && !proc.InsertingGrant? && !proc.Consuming? && !proc.Acting?
    ensures var (next, t) := Step(proc, s, allowed, adapter); StepPromise(proc, s, next, t)
  {
    var (next, t) := Step(proc, s, allowed, adapter);
    assert t.history == s.history && t.auths == s.auths;
  }

  lemma {:induction false} StepKeeps(proc: Proc, s: Store, allowed: set<string>, adapter: Adapter)
    requires StoreInv(s) && ProcInv(proc, s)
    ensures var (next, t) := Step(proc, s, allowed, adapter); StepPromise(proc, s, next, t)
  {
    match proc
    case InsertingGrant(p, id) => GrantStep(p, id, s, allowed, adapter);
    case Consuming(id, hash, op) => ConsumeStep(id, hash, op, s, allowed, adapter);
    case Acting(id, hash, op) => ActStep(id, hash, op, s, allowed, adapter);
    case _ => QuietStep(proc, s, allowed, adapter);
  }

  lemma {:induction false} OthersKeep(proc: Proc, other: Proc, s: Store, t: Store)
    requires ProcInv(other, s) && StoreEvolves(s, t) && Harmless(proc, s, t)
    requires forall id :: WasConsumed(s.history, id) ==> WasConsumed(t.history, id)
    requires proc.Acting? && other.Acting? ==> proc.id != other.id
    ensures ProcInv(other, t)
  {
  }

  lemma {:induction false} AdvanceKeepsInv(w: World, i: nat, allowed: set<string>, adapter: Adapter)
    requires Inv(w) && i < |w.procs|
    ensures var (next, t) := Step(w.procs[i], w.store, allowed, adapter);
            Inv(World(t, w.procs[i := next])) && StoreEvolves(w.store, t)
  {
    var (next, t) := Step(w.procs[i], w.store, allowed, adapter);
    StepKeeps(w.procs[i], w.store, allowed, adapter);
    var procs := w.procs[i := next];
    forall j | 0 <= j < |procs| ensures ProcInv(procs[j], t) {
      if j != i { OthersKeep(w.procs[i], w.procs[j], w.store, t); }
    }
    forall j | 0 <= j < |procs| && j != i && procs[j].Acting? && next.Acting? ensures procs[j].id != next.id {
      assert ProcInv(w.procs[j], w.store);
    }
  }

  lemma {:induction false} ExecKeepsInv(w: World, c: Choice)
    requires Inv(w)
    ensures Inv(Exec(w, c)) && StoreEvolves(w.store, Exec(w, c).store)
  {
    match c.action
    case Advance(i) => if i < |w.procs| { AdvanceKeepsInv(w, i, c.allowed, c.adapter); }
    case _ =>
  }

  lemma {:induction false} RunKeepsInv(w: World, cs: seq<Choice>)
    requires Inv(w)
    ensures Inv(RunAll(w, cs)) && StoreEvolves(w.store, RunAll(w, cs).store)
    decreases |cs|
  {
    if cs != [] {
      RunKeepsInv(w, cs[..|cs| - 1]);
      ExecKeepsInv(RunAll(w, cs[..|cs| - 1]), cs[|cs| - 1]);
    }
  }

  // ---- The race the unique key decides ----

  ghost predicate Reaches(w: World, v: World) {
    exists cs :: RunAll(w, cs) == v
  }

  lemma {:induction false} ReachesMore(w0: World, w: World, c: Choice)
    requires Reaches(w0, w)
    ensures Reaches(w0, Exec(w, c))
  {
    var cs :| RunAll(w0, cs) == w;
    assert (cs + [c])[..|cs|] == cs;
    assert RunAll(w0, cs + [c]) == Exec(w, c);
  }

  /** Process i of two takes a step. */
  lemma {:induction false} PairStep(
      w0: World, s: Store, a: Proc, b: Proc, i: nat, allowed: set<string>, adapter: Adapter)
    requires i < 2 && Reaches(w0, World(s, [a, b]))
    ensures i == 0 ==> var (next, t) := Step(a, s, allowed, adapter); Reaches(w0, World(t, [next, b]))
    ensures i == 1 ==> var (next, t) := Step(b, s, allowed, adapter); Reaches(w0, World(t, [a, next]))
  {
    ReachesMore(w0, World(s, [a, b]), Choice(Advance(i), allowed, adapter));
    var next := Step([a, b][i], s, allowed, adapter).0;
    assert [a, b][i := next] == if i == 0 then [next, b] else [a, next];
  }

  /** Two evaluators of one new transaction under one key can both pass the existence check and both record it. */
  lemma {:induction false} BothPassTheCheck(
      s: Store, p: Proposal, i: string, j: string, allowed: set<string>, adapter: Adapter)
    requires !KeyIssued(s, p.key) && p.tx !in s.txs
    ensures Reaches(World(s, [CheckingKey(p, i), CheckingKey(p, j)]),
                    World(s.(txs := s.txs[p.tx := 2]), [InsertingGrant(p, i), InsertingGrant(p, j)]))
  {
    var w0 := World(s, [CheckingKey(p, i), CheckingKey(p, j)]);
    assert RunAll(w0, []) == w0;
    PairStep(w0, s, CheckingKey(p, i), CheckingKey(p, j), 0, allowed, adapter);
    PairStep(w0, s, CheckingTx(p, i), CheckingKey(p, j), 1, allowed, adapter);
    PairStep(w0, s, CheckingTx(p, i), CheckingTx(p, j), 0, allowed, adapter);
    PairStep(w0, s, InsertingTx(p, i), CheckingTx(p, j), 1, allowed, adapter);
    PairStep(w0, s, InsertingTx(p, i), InsertingTx(p, j), 0, allowed, adapter);
    PairStep(w0, s.(txs := s.txs[p.tx := 1]), InsertingGrant(p, i), InsertingTx(p, j), 1, allowed, adapter);
    assert s.txs[p.tx := 1][p.tx := 2] == s.txs[p.tx := 2];
  }

  /** From there the one that inserts first is granted the key and the other raises. */
  lemma {:induction false} SecondInsertRaises(
      w0: World, s: Store, p: Proposal, i: string, j: string, allowed: set<string>, adapter: Adapter)
    requires !KeyIssued(s, p.key) && i !in s.auths
    requires Reaches(w0, World(s, [InsertingGrant(p, i), InsertingGrant(p, j)]))
    ensures var row := Row(p.tx, p.attempt, p.op, p.key, Issued);
            && Grant(s, i, row).Some?
            && Reaches(w0, World(Grant(s, i, row).value, [Answered(p, Authorized(i, p.op)), Gone]))
  {
    PairStep(w0, s, InsertingGrant(p, i), InsertingGrant(p, j), 0, allowed, adapter);
    var granted := Grant(s, i, Row(p.tx, p.attempt, p.op, p.key, Issued)).value;
    assert granted.auths[i].key == p.key;
    PairStep(w0, granted, Answered(p, Authorized(i, p.op)), InsertingGrant(p, j), 1, allowed, adapter);
  }

  // ---- The guarantees, over every run ----

  function Empty(): World {
    World(Store(map[], map[], []), [])
  }

  lemma {:induction false} EmptyInv()
    ensures Inv(Empty())
  {
  }

  ghost predicate PastScreening(proc: Proc) {
    proc.CheckingKey? || proc.CheckingTx? || proc.InsertingTx? || proc.InsertingGrant?
  }

  /** Nothing unsafe is authorised or past the screening. */
  ghost predicate SafeWorld(w: World) {
    && (forall id :: id in w.store.auths ==> SafeTarget(w.store.auths[id].hash.target))
    && (forall i :: 0 <= i < |w.procs| && PastScreening(w.procs[i]) ==> SafeTarget(w.procs[i].p.op.target))
  }

  lemma {:induction false} StepKeepsSafe(proc: Proc, s: Store, allowed: set<string>, adapter: Adapter)
    requires forall id :: id in s.auths ==> SafeTarget(s.auths[id].hash.target)
    requires PastScreening(proc) ==> SafeTarget(proc.p.op.target)
    ensures var (next, after) := Step(proc, s, allowed, adapter);
            && (PastScreening(next) ==> SafeTarget(next.p.op.target))
            && (forall id :: id in after.auths ==> SafeTarget(after.auths[id].hash.target))
  {
  }

  lemma {:induction false} RunKeepsSafe(cs: seq<Choice>)
    ensures SafeWorld(RunAll(Empty(), cs))
    decreases |cs|
  {
    if cs != [] {
      var (before, c) := (cs[..|cs| - 1], cs[|cs| - 1]);
      RunKeepsSafe(before);
      var w := RunAll(Empty(), before);
      if c.action.Advance? && c.action.i < |w.procs| {
        StepKeepsSafe(w.procs[c.action.i], w.store, c.allowed, c.adapter);
      }
    }
  }

  /** In no run is an operation authorised whose target climbs, is absolute, or names a drive. */
  lemma {:induction false} NoUnsafeGrant(cs: seq<Choice>, id: string)
    requires id in RunAll(Empty(), cs).store.auths
    ensures var target := RunAll(Empty(), cs).store.auths[id].hash.target;
            && (target == "" || target[0] !in {'/', '\\'})
            && (forall k :: 0 <= k < |target| ==> target[k] !in {':', '\0'})
            && (forall i: nat :: !PartAt(target, i, ".."))
  {
    RunKeepsSafe(cs);
    SafeExactly(RunAll(Empty(), cs).store.auths[id].hash.target);
  }

  /** At most one authorization per idempotency key, ever. */
  lemma {:induction false} OneGrantPerKey(cs: seq<Choice>, m: nat, n: nat)
    requires var h := RunAll(Empty(), cs).store.history; m < n < |h| && h[m].Granted? && h[n].Granted?
    ensures var h := RunAll(Empty(), cs).store.history; h[m].key != h[n].key && h[m].id != h[n].id
  {
    EmptyInv();
    RunKeepsInv(Empty(), cs);
    var h := RunAll(Empty(), cs).store.history;
    assert InOrder(h[..n], h[n]);
    assert h[..n][m] == h[m];
  }

  /** Every run of an adapter follows the consumption, and that the grant, of its authorization, on the compared
      operation. */
  lemma {:induction false} RunsAreAuthorized(cs: seq<Choice>, n: nat) returns (c: nat, g: nat)
    requires var h := RunAll(Empty(), cs).store.history; n < |h| && h[n].Ran?
    ensures var h := RunAll(Empty(), cs).store.history;
            && h[n].op == h[n].hash && g < c < n
            && h[c] == Consumed(h[n].id) && h[g].Granted? && h[g].id == h[n].id
  {
    EmptyInv();
    RunKeepsInv(Empty(), cs);
    var h := RunAll(Empty(), cs).store.history;
    assert InOrder(h[..n], h[n]);
    c :| 0 <= c < n && h[..n][c] == Consumed(h[n].id);
    assert h[c] == h[..n][c] && InOrder(h[..c], h[c]);
    g :| 0 <= g < c && h[..c][g].Granted? && h[..c][g].id == h[n].id;
    assert h[g] == h[..c][g];
  }

  /** At most one adapter run per idempotency key. */
  lemma {:induction false} OneRunPerKey(cs: seq<Choice>, m: nat, n: nat)
    requires var h := RunAll(Empty(), cs).store.history; m < n < |h| && h[m].Ran? && h[n].Ran?
    ensures var s := RunAll(Empty(), cs).store;
            && s.history[m].id in s.auths && s.history[n].id in s.auths
            && s.auths[s.history[m].id].key != s.auths[s.history[n].id].key
  {
    EmptyInv();
    RunKeepsInv(Empty(), cs);
    var s := RunAll(Empty(), cs).store;
    var h := s.history;
    assert InOrder(h[..n], h[n]) && h[..n][m] == h[m];
    assert h[m].id != h[n].id;
    var c, g := RunsAreAuthorized(cs, m);
    var c', g' := RunsAreAuthorized(cs, n);
    assert h[g].Granted? && h[g'].Granted?;
  }

  /** A run on a decision some evaluator gave out acts on the operation the store recorded for it. */
  lemma {:induction false} GenuineRunsMatchTheStore(cs: seq<Choice>, i: nat, n: nat)
    requires var w := RunAll(Empty(), cs);
             && i < |w.procs| && w.procs[i].Answered? && w.procs[i].d.Authorized?
             && n < |w.store.history| && w.store.history[n].Ran?
             && w.store.history[n].id == w.procs[i].d.id && w.store.history[n].hash == w.procs[i].d.hash
    ensures var s := RunAll(Empty(), cs).store;
            s.history[n].id in s.auths && s.history[n].op == s.auths[s.history[n].id].hash
  {
    EmptyInv();
    RunKeepsInv(Empty(), cs);
    var w := RunAll(Empty(), cs);
    assert ProcInv(w.procs[i], w.store);
    assert InOrder(w.store.history[..n], w.store.history[n]);
  }

  /** A decision nobody issued, naming a real id, spends it on another operation: the stored hash is never compared. */
  lemma {:induction false} UnissuedDecisionRuns(
      s: Store, id: string, op: Operation, allowed: set<string>, adapter: Adapter)
    requires id in s.auths && s.auths[id].state == Issued && op != s.auths[id].hash
    ensures var (done, after) := Solo(Comparing(Authorized(id, op), op), s, allowed, adapter);
            Ran(id, op, op) in after.history && id in after.auths && after.auths[id].state == Spent
                && after.auths[id].hash != op
  {
    SoloExecutionExactly(Authorized(id, op), op, s, allowed, adapter);
    var after := Solo(Comparing(Authorized(id, op), op), s, allowed, adapter).1;
    assert after.history[|after.history| - 1] == Ran(id, op, op);
  }

  /** Consumed, never run, and no process left that could run it: what a crash between the two steps leaves. */
  ghost predicate Stranded(w: World, id: string) {
    && id in w.store.auths && w.store.auths[id].state == Spent && !WasRun(w.store.history, id)
    && (forall i :: 0 <= i < |w.procs| ==> !(w.procs[i].Acting? && w.procs[i].id == id))
  }

  lemma {:induction false} ExecKeepsStranded(w: World, c: Choice, id: string)
    requires Inv(w) && Stranded(w, id)
    ensures Stranded(Exec(w, c), id)
  {
    if c.action.Advance? && c.action.i < |w.procs| {
      StepKeeps(w.procs[c.action.i], w.store, c.allowed, c.adapter);
      assert WasConsumed(w.store.history, id);
    }
  }

  /** At most once is not exactly once: a stranded authorization is never run, whatever follows. */
  lemma {:induction false} StrandedForever(w: World, cs: seq<Choice>, id: string)
    requires Inv(w) && Stranded(w, id)
    ensures Stranded(RunAll(w, cs), id)
    decreases |cs|
  {
    if cs != [] {
      StrandedForever(w, cs[..|cs| - 1], id);
      RunKeepsInv(w, cs[..|cs| - 1]);
      ExecKeepsStranded(RunAll(w, cs[..|cs| - 1]), cs[|cs| - 1], id);
    }
  }

  /** And a crash right after consuming does strand it. */
  lemma {:induction false} CrashStrands(w: World, i: nat, allowed: set<string>, adapter: Adapter)
    requires Inv(w) && i < |w.procs| && w.procs[i].Acting?
    ensures Stranded(Exec(w, Choice(Crash(i), allowed, adapter)), w.procs[i].id)
  {
    var id := w.procs[i].id;
    assert ProcInv(w.procs[i], w.store);
    assert id in w.store.auths;
    forall j | 0 <= j < |w.procs| && j != i && w.procs[j].Acting? ensures w.procs[j].id != id {
      assert i < j || j < i;
    }
  }
}
