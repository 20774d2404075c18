/**
 Any number of promotions, reconcile passes and verifications over one table and one branch,
 interleaved step by step, any of them crashing between two steps.
 */
module PromotionProtocol {
  import opened Common
  import opened Commits
  import opened ProposalTable
  import opened KernelStore
  import opened Promoter

  datatype Proc =
    | Promoting(pc: Pc)
    | Reconciling                                            // about to list the pending rows
    | Sweeping(todo: map<Task, Commit>)                      // listed rows not yet looked at
    | Deciding(task: Task, merged: bool, todo: map<Task, Commit>)
    | Checking(draft: Receipt)                               // about to judge the candidate
    | Certifying(draft: Receipt, from: State)                // tests passed, about to request VERIFIED
    | Recording(receipt: Receipt)                            // about to insert the receipt
    | Stopped

  datatype World = World(sh: Shared, procs: map<nat, Proc>)

  datatype Action =
    | Seal(task: Task, row: Row)
    | PublicMove(task: Task, from: State, to: State)
    | AdvanceBranch(head: Commit)
    | StartPromote(p: nat, task: Task, receiptId: nat)
    | StartReconcile(p: nat)
    | StartVerify(p: nat, draft: Receipt)
    | Run(p: nat, e: Env, pick: Task)
    | Crash(p: nat)

  /** The state a verification moves from: anything but CANDIDATE_SEALED and VERIFYING counts as sealed. */
  function VerifyFrom(rows: Table, task: Task): State {
    if task in rows && rows[task].state == Verifying then Verifying else CandidateSealed
  }

  /** One atomic step of one process. `pick` is the row a sweep looks at next. */
  function ProcStep(proc: Proc, sh: Shared, e: Env, pick: Task): (Proc, Shared) {
    match proc
    case Promoting(pc) =>
      var (pc', sh') := Step(pc, sh, e);
      (Promoting(pc'), sh')
    case Reconciling =>
      (Sweeping(map k | k in sh.rows && sh.rows[k].state == PromotionPending :: sh.rows[k].cand), sh)
    case Sweeping(todo) =>
      if pick !in todo then (if todo == map[] then Stopped else proc, sh)
      else if !e.headKnown then (Sweeping(todo - {pick}), sh)
      else (Deciding(pick, IsAncestor(todo[pick], sh.head), todo - {pick}), sh)
    case Deciding(task, merged, todo) =>
      // A failed compare-and-swap raises here and ends the pass.
      var to := if merged then PostPromotionVerified else Verified;
      (if CasApplies(sh.rows, task, PromotionPending, to) then Sweeping(todo) else Stopped,
       sh.(rows := Cas(sh.rows, task, PromotionPending, to)))
    case Checking(draft) =>
      if !e.clean then (Recording(draft.(status := Blocked)), sh)
      else if !e.testsPass then (Recording(draft.(status := Rejected)), sh)
      else (Certifying(draft, VerifyFrom(sh.rows, draft.task)), sh)
    case Certifying(draft, from) =>
      // A rejected request raises: its handler names a failure class that does not exist.
      (if e.pendingGov.Stable() then Recording(draft.(status := Verified)) else Stopped,
       Requested(sh, draft.task, from, Verified, e.pendingGov))
    case Recording(receipt) =>
      (Stopped, if receipt.task in sh.rows then sh.(receipts := sh.receipts + [receipt]) else sh)
    case Stopped => (Stopped, sh)
  }

  function Exec(w: World, a: Action): World {
    match a
    case Seal(task, row) =>
      if task in w.sh.rows then w else w.(sh := w.sh.(rows := w.sh.rows[task := row]))
    case PublicMove(task, from, to) =>
      if Privileged(to) then w else w.(sh := w.sh.(rows := Cas(w.sh.rows, task, from, to)))
    case AdvanceBranch(head) =>
      if IsAncestor(w.sh.head, head) then w.(sh := w.sh.(head := head)) else w
    case StartPromote(p, task, rid) =>
      if p in w.procs then w else w.(procs := w.procs[p := Promoting(Begin(task, rid))])
    case StartReconcile(p) =>
      if p in w.procs then w else w.(procs := w.procs[p := Reconciling])
    case StartVerify(p, draft) =>
      if p in w.procs then w else w.(procs := w.procs[p := Checking(draft)])
    case Run(p, e, pick) =>
      if p !in w.procs then w
      else
        var (proc', sh') := ProcStep(w.procs[p], w.sh, e, pick);
        World(sh', w.procs[p := proc'])
    case Crash(p) => w.(procs := w.procs - {p})
  }

  function RunAll(w: World, actions: seq<Action>): World {
    if actions == [] then w
    else Exec(RunAll(w, actions[..|actions| - 1]), actions[|actions| - 1])
  }

  /** Proposals are sealed below the promoted states, or truthfully; verification gets the sealed manifest. */
  ghost predicate Admissible(w: World, a: Action) {
    match a
    case Seal(task, row) =>
      task !in w.sh.rows && OnBranchState(row.state) ==> IsAncestor(row.cand, w.sh.head)
    case StartVerify(_, draft) =>
      draft.task in w.sh.rows && w.sh.rows[draft.task].cand == draft.cand
    case _ => true
  }

  ghost predicate AllAdmissible(w: World, actions: seq<Action>) {
    forall i :: 0 <= i < |actions| ==> Admissible(RunAll(w, actions[..i]), actions[i])
  }

  /** A verification that nobody disturbs: judge, certify if it may, record. */
  function VerifyAlone(draft: Receipt, sh: Shared, e: Env): (Proc, Shared) {
    var (judged, sh1) := ProcStep(Checking(draft), sh, e, draft.task);
    var (certified, sh2) := ProcStep(judged, sh1, e, draft.task);
    ProcStep(certified, sh2, e, draft.task)
  }

  /**
   Where it ends: an unclean workspace is recorded as BLOCKED and failing tests as REJECTED, with the row left alone;
   passing ones move a VERIFYING or sealed row to VERIFIED and are recorded, unless the governance changed.
   */
  lemma {:induction false} VerificationEnds(draft: Receipt, sh: Shared, e: Env)
    requires draft.task in sh.rows
    ensures var (done, after) := VerifyAlone(draft, sh, e);
            var row := sh.rows[draft.task];
            && done == Stopped && after.head == sh.head
            && if !e.clean then after == sh.(receipts := sh.receipts + [draft.(status := Blocked)])
               else if !e.testsPass then after == sh.(receipts := sh.receipts + [draft.(status := Rejected)])
               else if !e.pendingGov.Stable() then after == sh
               else
                 && after.receipts == sh.receipts + [draft.(status := Verified)]
                 && after.rows == sh.rows[draft.task := row.(state :=
                      if row.state == Verifying || row.state == CandidateSealed then Verified else row.state)]
  {
    assert sh.rows[draft.task := sh.rows[draft.task]] == sh.rows;
  }

  /** A sweep that nobody disturbs, looking at its rows in the given order: two steps a row. */
  function SweepAlone(todo: map<Task, Commit>, sh: Shared, order: seq<Task>): (Proc, Shared)
    decreases |order|
  {
    if order == [] then (Sweeping(todo), sh)
    else
      var (looked, sh1) := ProcStep(Sweeping(todo), sh, ALL_GOOD, order[0]);
      var (wrote, sh2) := ProcStep(looked, sh1, ALL_GOOD, order[0]);
      if wrote.Sweeping? then SweepAlone(wrote.todo, sh2, order[1..]) else (wrote, sh2)
  }

  /** The two steps of a sweep on one row. */
  lemma {:induction false} SweepOneRow(
      rows: Table, todo: map<Task, Commit>, sh: Shared, task: Task) returns (sh': Shared)
    requires PartlyReconciled(rows, sh.rows, todo, sh.head, {}) && task in todo
    ensures var (looked, sh1) := ProcStep(Sweeping(todo), sh, ALL_GOOD, task);
      ProcStep(looked, sh1, ALL_GOOD, task) == (Sweeping(todo - {task}), sh')
    ensures PartlyReconciled(rows, sh'.rows, todo - {task}, sh.head, {})
    ensures sh'.head == sh.head && sh'.receipts == sh.receipts
  {
    ReconcileOne(rows, sh.rows, todo, sh.head, {}, task);
    var to := if IsAncestor(todo[task], sh.head) then PostPromotionVerified else Verified;
    sh' := sh.(rows := Cas(sh.rows, task, PromotionPending, to));
  }

  lemma {:induction false} RestOfOrder(todo: map<Task, Commit>, order: seq<Task>)
    requires |order| > 0
    requires forall k :: k in todo <==> k in order
    requires forall i, j :: 0 <= i < j < |order| ==> order[i] != order[j]
    ensures forall k :: k in todo - {order[0]} <==> k in order[1..]
    ensures order[0] in todo
  {
    assert order == [order[0]] + order[1..];
    forall k | k in order[1..] ensures k != order[0] {
      var i :| 0 <= i < |order| - 1 && order[1..][i] == k;
      assert order[i + 1] == k;
    }
  }

  /** Whatever the order of the query's rows, an undisturbed sweep is the coordinator's reconcile pass. */
  lemma {:induction false} SweepAloneReconciles(rows: Table, todo: map<Task, Commit>, sh: Shared, order: seq<Task>)
    requires PartlyReconciled(rows, sh.rows, todo, sh.head, {})
    requires forall k :: k in todo <==> k in order
    requires forall i, j :: 0 <= i < j < |order| ==> order[i] != order[j]
    ensures SweepAlone(todo, sh, order) == (Sweeping(map[]), sh.(rows := Reconciled(rows, sh.head, {})))
    decreases |order|
  {
    if order == [] {
      assert todo == map[];
      assert sh.rows == Reconciled(rows, sh.head, {});
    } else {
      RestOfOrder(todo, order);
      var sh' := SweepOneRow(rows, todo, sh, order[0]);
      SweepAloneReconciles(rows, todo - {order[0]}, sh', order[1..]);
    }
  }

  // ---- The invariant ----

  ghost predicate Safe(sh: Shared) {
    forall k :: k in sh.rows && OnBranchState(sh.rows[k].state) ==> IsAncestor(sh.rows[k].cand, sh.head)
  }

  ghost predicate Certified(r: Receipt, rows: Table) {
    r.task in rows && rows[r.task].cand == r.cand
  }

  ghost predicate ListedCandidates(todo: map<Task, Commit>, rows: Table) {
    forall k :: k in todo ==> k in rows && rows[k].cand == todo[k]
  }

  ghost predicate PcInv(pc: Pc, sh: Shared) {
    match pc
    case Begin(_, _) => true
    case Done(task, out) => out == Returned(true) ==> task in sh.rows && OnBranch(sh, task)
    case Merged(r) => Certified(r, sh.rows) && IsAncestor(r.cand, sh.head)
    case MarkedPromoted(r) => Certified(r, sh.rows) && IsAncestor(r.cand, sh.head)
    case TestsFailed(r) => Certified(r, sh.rows) && IsAncestor(r.cand, sh.head)
    case TestsPassed(r) => Certified(r, sh.rows) && IsAncestor(r.cand, sh.head)
    case _ => Certified(pc.r, sh.rows)
  }

  ghost predicate ProcInv(proc: Proc, sh: Shared) {
    match proc
    case Promoting(pc) => PcInv(pc, sh)
    case Sweeping(todo) => ListedCandidates(todo, sh.rows)
    case Deciding(task, merged, todo) =>
      && task in sh.rows
      && (merged ==> OnBranch(sh, task))
      && ListedCandidates(todo, sh.rows)
    case Checking(draft) => Certified(draft, sh.rows)
    case Certifying(draft, _) => Certified(draft, sh.rows)
    case Recording(receipt) => Certified(receipt, sh.rows)
    case _ => true
  }

  ghost predicate Inv(w: World) {
    && Safe(w.sh)
    && SealedReceipts(w.sh)
    && forall p :: p in w.procs ==> ProcInv(w.procs[p], w.sh)
  }

  /** What every step of anyone keeps: rows and candidates stay, states follow legal edges, the branch only grows. */
  ghost predicate Evolves(sh: Shared, sh': Shared) {
    && (forall k :: k in sh.rows ==>
         && k in sh'.rows
         && sh'.rows[k].cand == sh.rows[k].cand
         && sh'.rows[k].base == sh.rows[k].base
         && (sh'.rows[k].state == sh.rows[k].state || Legal(sh.rows[k].state, sh'.rows[k].state)))
    && sh.receipts <= sh'.receipts
    && IsAncestor(sh.head, sh'.head)
  }

  lemma {:induction false} ProcInvSurvives(proc: Proc, sh: Shared, sh': Shared)
    requires ProcInv(proc, sh) && Evolves(sh, sh')
    ensures ProcInv(proc, sh')
  {
    forall c: Commit | IsAncestor(c, sh.head) ensures IsAncestor(c, sh'.head) {
      AncestorTransitive(c, sh.head, sh'.head);
    }
  }

  lemma {:induction false} StepEvolves(proc: Proc, sh: Shared, e: Env, pick: Task)
    ensures Evolves(sh, ProcStep(proc, sh, e, pick).1)
  {
    if proc.Promoting? && proc.pc.CheckedOut? { MergeKeepsHistory(sh.head, proc.pc.r.cand, sh.head); }
  }

  lemma {:induction false} ExecEvolves(w: World, a: Action)
    ensures Evolves(w.sh, Exec(w, a).sh)
  {
    if a.Run? && a.p in w.procs { StepEvolves(w.procs[a.p], w.sh, a.e, a.pick); }
  }

  lemma {:induction false} PromoteStepKeepsInv(pc: Pc, sh: Shared, e: Env)
    requires Safe(sh) && SealedReceipts(sh) && PcInv(pc, sh)
    ensures var (pc', sh') := Step(pc, sh, e); PcInv(pc', sh') && Safe(sh')
  {
    if pc.Begin? && 1 <= pc.receiptId <= |sh.receipts| { assert sh.receipts[pc.receiptId - 1] in sh.receipts; }
    if pc.CheckedOut? {
      MergeStepKeepsInv(pc, sh, e);
    } else if pc.Merged? || pc.TestsPassed? {
      PromotingStepKeepsInv(pc, sh, e);
    }
  }

  lemma {:induction false} MergeStepKeepsInv(pc: Pc, sh: Shared, e: Env)
    requires pc.CheckedOut? && Safe(sh) && SealedReceipts(sh) && PcInv(pc, sh)
    ensures var (pc', sh') := Step(pc, sh, e); PcInv(pc', sh') && Safe(sh')
  {
    MergeKeepsHistory(sh.head, pc.r.cand, sh.head);
    forall k | k in sh.rows && OnBranchState(sh.rows[k].state)
      ensures IsAncestor(sh.rows[k].cand, Step(pc, sh, e).1.head)
    {
      MergeKeepsHistory(sh.head, pc.r.cand, sh.rows[k].cand);
    }
  }

  lemma {:induction false} PromotingStepKeepsInv(pc: Pc, sh: Shared, e: Env)
    requires (pc.Merged? || pc.TestsPassed?) && Safe(sh) && SealedReceipts(sh) && PcInv(pc, sh)
    ensures var (pc', sh') := Step(pc, sh, e); PcInv(pc', sh') && Safe(sh')
  {
  }

  lemma {:induction false} StepKeepsInv(proc: Proc, sh: Shared, e: Env, pick: Task)
    requires Safe(sh) && SealedReceipts(sh) && ProcInv(proc, sh)
    ensures var (proc', sh') := ProcStep(proc, sh, e, pick);
      ProcInv(proc', sh') && Safe(sh') && SealedReceipts(sh')
  {
    match proc
    case Promoting(pc) =>
      PromoteStepKeepsInv(pc, sh, e);
      assert ProcStep(proc, sh, e, pick).1.receipts == sh.receipts;
    case Deciding(_, _, _) => SweepStepKeepsInv(proc, sh, e, pick);
    case Certifying(_, _) => VerifyStepKeepsInv(proc, sh, e, pick);
    case _ =>
  }

  lemma {:induction false} SweepStepKeepsInv(proc: Proc, sh: Shared, e: Env, pick: Task)
    requires proc.Deciding? && Safe(sh) && SealedReceipts(sh) && ProcInv(proc, sh)
    ensures var (proc', sh') := ProcStep(proc, sh, e, pick);
      ProcInv(proc', sh') && Safe(sh') && SealedReceipts(sh')
  {
  }

  lemma {:induction false} VerifyStepKeepsInv(proc: Proc, sh: Shared, e: Env, pick: Task)
    requires proc.Certifying? && Safe(sh) && SealedReceipts(sh) && ProcInv(proc, sh)
    ensures var (proc', sh') := ProcStep(proc, sh, e, pick);
      ProcInv(proc', sh') && Safe(sh') && SealedReceipts(sh')
  {
  }

  lemma {:induction false} ExecKeepsInv(w: World, a: Action)
    requires Inv(w) && Admissible(w, a)
    ensures Inv(Exec(w, a))
  {
    var w' := Exec(w, a);
    ExecEvolves(w, a);
    forall p | p in w.procs ensures ProcInv(w.procs[p], w'.sh) {
      ProcInvSurvives(w.procs[p], w.sh, w'.sh);
    }
    if a.Run? && a.p in w.procs {
      StepKeepsInv(w.procs[a.p], w.sh, a.e, a.pick);
    } else if a.AdvanceBranch? {
      forall k | k in w.sh.rows && OnBranchState(w.sh.rows[k].state)
        ensures IsAncestor(w.sh.rows[k].cand, w'.sh.head)
      {
        AncestorTransitive(w.sh.rows[k].cand, w.sh.head, w'.sh.head);
      }
    }
  }

  // ---- Whole runs ----

  lemma {:induction false} RunKeepsInv(w: World, actions: seq<Action>)
    requires Inv(w) && AllAdmissible(w, actions)
    ensures Inv(RunAll(w, actions))
    decreases |actions|
  {
    if actions != [] {
      var n := |actions| - 1;
      assert forall i :: 0 <= i < n ==> actions[..n][..i] == actions[..i];
      RunKeepsInv(w, actions[..n]);
      ExecKeepsInv(RunAll(w, actions[..n]), actions[n]);
    }
  }

  lemma {:induction false} RunEvolves(w: World, actions: seq<Action>, task: Task)
    requires task in w.sh.rows
    ensures
      var w' := RunAll(w, actions);
      && task in w'.sh.rows
      && w'.sh.rows[task].cand == w.sh.rows[task].cand
      && IsAncestor(w.sh.head, w'.sh.head)
      && (w.sh.rows[task].state == PostPromotionVerified ==> w'.sh.rows[task].state == PostPromotionVerified)
    decreases |actions|
  {
    if actions != [] {
      var w1 := RunAll(w, actions[..|actions| - 1]);
      RunEvolves(w, actions[..|actions| - 1], task);
      ExecEvolves(w1, actions[|actions| - 1]);
      AncestorTransitive(w.sh.head, w1.sh.head, RunAll(w, actions).sh.head);
    }
  }

  function Start(head: Commit): World {
    World(Shared(map[], [], head), map[])
  }

  /**
   Safety over every interleaving: a row stored as PROMOTED or POST_PROMOTION_VERIFIED has its
   candidate on the branch at that moment, and after any continuation whatsoever.
   */
  lemma {:induction false} PromotedStaysOnBranch(head: Commit, actions: seq<Action>, later: seq<Action>, task: Task)
    requires AllAdmissible(Start(head), actions)
    ensures
      var w := RunAll(Start(head), actions);
      var w' := RunAll(w, later);
      task in w.sh.rows && OnBranchState(w.sh.rows[task].state) ==>
        && OnBranch(w.sh, task)
        && task in w'.sh.rows
        && w'.sh.rows[task].cand == w.sh.rows[task].cand
        && OnBranch(w'.sh, task)
        && (w.sh.rows[task].state == PostPromotionVerified ==> w'.sh.rows[task].state == PostPromotionVerified)
  {
    var w := RunAll(Start(head), actions);
    RunKeepsInv(Start(head), actions);
    if task in w.sh.rows && OnBranchState(w.sh.rows[task].state) {
      RunEvolves(w, later, task);
      AncestorTransitive(w.sh.rows[task].cand, w.sh.head, RunAll(w, later).sh.head);
    }
  }

  /** No assumption on sealing or verification is needed for this half: every stored change is a legal edge. */
  lemma {:induction false} EveryChangeIsLegal(w: World, a: Action, task: Task)
    requires task in w.sh.rows
    ensures
      var rows' := Exec(w, a).sh.rows;
      && task in rows'
      && rows'[task].cand == w.sh.rows[task].cand
      && (rows'[task].state != w.sh.rows[task].state ==> Legal(w.sh.rows[task].state, rows'[task].state))
      && (w.sh.rows[task].state == PostPromotionVerified ==> rows'[task] == w.sh.rows[task])
  {
    ExecEvolves(w, a);
  }

  /** In any interleaving, a promotion that returned True has its task's candidate on the branch. */
  lemma {:induction false} TrueMeansOnBranch(head: Commit, actions: seq<Action>, p: nat)
    requires AllAdmissible(Start(head), actions)
    ensures
      var w := RunAll(Start(head), actions);
      p in w.procs && w.procs[p].Promoting? && w.procs[p].pc.Done? && w.procs[p].pc.out == Returned(true) ==>
        w.procs[p].pc.owner in w.sh.rows && OnBranch(w.sh, w.procs[p].pc.owner)
  {
    RunKeepsInv(Start(head), actions);
  }

  /** Sealing a new row keeps the table truthful exactly when it is admissible. */
  lemma {:induction false} SealSafeIffAdmissible(w: World, task: Task, row: Row)
    requires Safe(w.sh)
    ensures Safe(Exec(w, Seal(task, row)).sh) <==> Admissible(w, Seal(task, row))
  {
    var rows' := Exec(w, Seal(task, row)).sh.rows;
    assert task !in w.sh.rows ==> rows'[task] == row;
  }

  /** One more step of a run whose length so far is not bounded. */
  lemma {:induction false} Extend(w: World, actions: seq<Action>, a: Action)
    ensures RunAll(w, actions + [a]) == Exec(RunAll(w, actions), a)
  {
    assert (actions + [a])[..|actions|] == actions;
  }

  ghost predicate Reaches(w: World, w': World) {
    exists actions :: RunAll(w, actions) == w'
  }

  lemma {:induction false} ReachesMore(w0: World, w: World, a: Action)
    requires Reaches(w0, w)
    ensures Reaches(w0, Exec(w, a))
  {
    var actions :| RunAll(w0, actions) == w;
    Extend(w0, actions, a);
  }

  /** A world of two processes, a promotion and a rival. */
  function Two(sh: Shared, a: Proc, b: Proc): World {
    World(sh, map[0 := a, 1 := b])
  }

  lemma {:induction false} FirstMoves(w0: World, sh: Shared, pc: Pc, b: Proc, n: nat)
    requires Reaches(w0, Two(sh, Promoting(pc), b))
    ensures var (pc', sh') := Cut(pc, sh, ALL_GOOD, n); Reaches(w0, Two(sh', Promoting(pc'), b))
    decreases n
  {
    if n > 0 {
      FirstMove(w0, sh, pc, b);
      var (pc', sh') := Step(pc, sh, ALL_GOOD);
      FirstMoves(w0, sh', pc', b, n - 1);
    }
  }

  lemma {:induction false} FirstMove(w0: World, sh: Shared, pc: Pc, b: Proc)
    requires Reaches(w0, Two(sh, Promoting(pc), b))
    ensures var (pc', sh') := Step(pc, sh, ALL_GOOD); Reaches(w0, Two(sh', Promoting(pc'), b))
  {
    var (pc', sh') := Step(pc, sh, ALL_GOOD);
    ReachesMore(w0, Two(sh, Promoting(pc), b), Run(0, ALL_GOOD, ""));
    assert Two(sh, Promoting(pc), b).procs[0 := Promoting(pc')] == Two(sh', Promoting(pc'), b).procs;
  }

  lemma {:induction false} SecondMoves(w0: World, sh: Shared, a: Proc, b: Proc, task: Task)
    requires Reaches(w0, Two(sh, a, b))
    ensures var (b', sh') := ProcStep(b, sh, ALL_GOOD, task); Reaches(w0, Two(sh', a, b'))
  {
    ReachesMore(w0, Two(sh, a, b), Run(1, ALL_GOOD, task));
    var (b', sh') := ProcStep(b, sh, ALL_GOOD, task);
    assert Two(sh, a, b).procs[1 := b'] == Two(sh', a, b').procs;
  }

  lemma {:induction false} BothStart(sh: Shared, task: Task)
    ensures Reaches(World(sh, map[]), Two(sh, Promoting(Begin(task, 1)), Reconciling))
  {
    var w0 := World(sh, map[]);
    assert RunAll(w0, []) == w0;
    ReachesMore(w0, w0, StartPromote(0, task, 1));
    ReachesMore(w0, World(sh, map[0 := Promoting(Begin(task, 1))]), StartReconcile(1));
    assert map[0 := Promoting(Begin(task, 1))][1 := Reconciling] == map[0 := Promoting(Begin(task, 1)),
            1 := Reconciling];
  }

  lemma {:induction false} SixStepsToPending(sh: Shared, task: Task)
    requires OnCourse(Begin(task, 1), sh, task) && sh.rows[task].state == Verified
    ensures Cut(Begin(task, 1), sh, ALL_GOOD, 6) ==
            (MarkedPending(sh.receipts[0]), sh.(rows := Cas(sh.rows, task, Verified, PromotionPending)))
  {
    var r, base := sh.receipts[0], sh.rows[task].base;
    assert Cut(NotFinal(r, base), sh, ALL_GOOD, 3) == Cut(RepoClean(r, base), sh, ALL_GOOD, 2);
    assert Cut(HasReceipt(r), sh, ALL_GOOD, 5) == Cut(HasProposal(r, base), sh, ALL_GOOD, 4);
  }

  lemma {:induction false} ThreeStepsToTrue(sh: Shared, r: Receipt)
    requires r.task in sh.rows && sh.rows[r.task].state == Verified
    ensures Cut(Merged(r), sh, ALL_GOOD, 3) == (Done(r.task, Returned(true)), sh)
  {
    assert Cut(MarkedPromoted(r), sh, ALL_GOOD, 2) == Cut(TestsPassed(r), sh, ALL_GOOD, 1);
  }

  /** The rival lists the pending row and finds its candidate not on the branch. */
  lemma {:induction false} RivalLooks(w0: World, sh: Shared, a: Proc, task: Task) returns (rest: map<Task, Commit>)
    requires Reaches(w0, Two(sh, a, Reconciling))
    requires task in sh.rows && sh.rows[task].state == PromotionPending && !OnBranch(sh, task)
    ensures Reaches(w0, Two(sh, a, Deciding(task, false, rest)))
  {
    var todo := map k | k in sh.rows && sh.rows[k].state == PromotionPending :: sh.rows[k].cand;
    rest := todo - {task};
    SecondMoves(w0, sh, a, Reconciling, task);
    SecondMoves(w0, sh, a, Sweeping(todo), task);
  }

  /** The rival writes its stale decision over a promotion that has just merged. */
  lemma {:induction false} RivalWrites(w0: World, sh: Shared, r: Receipt, rest: map<Task, Commit>)
    requires Reaches(w0, Two(sh, Promoting(Merged(r)), Deciding(r.task, false, rest)))
    requires r.task in sh.rows && sh.rows[r.task].state == PromotionPending
    ensures Reaches(w0, Two(sh.(rows := Cas(sh.rows, r.task, PromotionPending, Verified)),
                            Promoting(Done(r.task, Returned(true))), Sweeping(rest)))
  {
    SecondMoves(w0, sh, Promoting(Merged(r)), Deciding(r.task, false, rest), r.task);
    var sh' := sh.(rows := Cas(sh.rows, r.task, PromotionPending, Verified));
    FirstMoves(w0, sh', Merged(r), Sweeping(rest), 3);
    ThreeStepsToTrue(sh', r);
  }

  lemma {:induction false} TwoStepsToMerge(sh: Shared, r: Receipt)
    requires MergeFastForward(sh.head, r.cand).Some?
    ensures Cut(MarkedPending(r), sh, ALL_GOOD, 2) == (Merged(r), sh.(head := MergeFastForward(sh.head, r.cand).value))
  {
    assert Cut(CheckedOut(r), sh, ALL_GOOD, 1) == Step(CheckedOut(r), sh, ALL_GOOD);
  }

  /**
   A reconcile pass that looks at the branch just before the merge rolls the row back just after it;
   the promotion's remaining moves fail unseen, so it returns True while the row says VERIFIED.
   */
  lemma {:induction false} TrueWithoutFinalState(sh: Shared, task: Task)
    requires OnCourse(Begin(task, 1), sh, task) && sh.rows[task].state == Verified
    requires sh.receipts[0].cand == sh.rows[task].cand && !OnBranch(sh, task)
    ensures exists rest ::
      Reaches(World(sh, map[]),
              Two(sh.(head := MergeFastForward(sh.head, sh.receipts[0].cand).value),
                  Promoting(Done(task, Returned(true))), Sweeping(rest)))
  {
    var w0, r := World(sh, map[]), sh.receipts[0];
    BothStart(sh, task);
    FirstMoves(w0, sh, Begin(task, 1), Reconciling, 6);
    SixStepsToPending(sh, task);
    var sh1 := sh.(rows := Cas(sh.rows, task, Verified, PromotionPending));
    var rest := RivalLooks(w0, sh1, Promoting(MarkedPending(r)), task);
    FirstMoves(w0, sh1, MarkedPending(r), Deciding(task, false, rest), 2);
    TwoStepsToMerge(sh1, r);
    var sh2 := sh1.(head := MergeFastForward(sh.head, r.cand).value);
    RivalWrites(w0, sh2, r, rest);
    assert Cas(sh2.rows, task, PromotionPending, Verified) == sh.rows;
  }
}
