/**
 One promotion and one reconcile pass, as the coordinator runs them. `Step` is one atomic access to
 the database or to git; the coordinator's methods are proved to be the uninterrupted runs of `Step`.
 */
module Promoter {
  import opened Common
  import opened Commits
  import opened ProposalTable
  import opened KernelStore
  import opened Transition

  /** What all promotions share: the two tables and the head of the target branch. */
  datatype Shared = Shared(rows: Table, receipts: seq<Receipt>, head: Commit)

  /** The governance digest as signed by the requester and as recomputed by the engine. */
  datatype GovernanceReads = GovernanceReads(signed: string, current: string) {
    predicate Stable() { signed == current }
  }

  /** Everything one promotion learns from outside the tables. */
  datatype Env = Env(
    clean: bool, headKnown: bool, checkoutOk: bool, mergeRuns: bool, testsPass: bool,
    pendingGov: GovernanceReads, rollbackGov: GovernanceReads, promotedGov: GovernanceReads,
    rejectGov: GovernanceReads, finalGov: GovernanceReads)

  datatype Outcome = Returned(value: bool) | ReceiptNotFound | ReceiptMismatch

  /** Program counter of `promote`, named by what has just been established. */
  datatype Pc =
    | Begin(task: Task, receiptId: nat)
    | HasReceipt(r: Receipt)
    | HasProposal(r: Receipt, base: Commit)
    | NotFinal(r: Receipt, base: Commit)
    | RepoClean(r: Receipt, base: Commit)
    | BaseOnBranch(r: Receipt)
    | MarkedPending(r: Receipt)
    | CheckedOut(r: Receipt)
    | RollingBack(r: Receipt)
    | Merged(r: Receipt)
    | MarkedPromoted(r: Receipt)
    | TestsFailed(r: Receipt)
    | TestsPassed(r: Receipt)
    | Done(owner: Task, out: Outcome)

  function Rank(pc: Pc): nat {
    match pc
    case Begin(_, _) => 12
    case HasReceipt(_) => 11
    case HasProposal(_, _) => 10
    case NotFinal(_, _) => 9
    case RepoClean(_, _) => 8
    case BaseOnBranch(_) => 7
    case MarkedPending(_) => 6
    case CheckedOut(_) => 5
    case RollingBack(_) => 1
    case Merged(_) => 3
    case MarkedPromoted(_) => 2
    case TestsFailed(_) => 1
    case TestsPassed(_) => 1
    case Done(_, _) => 0
  }

  /** An accepted request attempts the move; whether the move applied is not visible to the promoter. */
  function Requested(sh: Shared, task: Task, from: State, to: State, gov: GovernanceReads): Shared {
    if gov.Stable() then sh.(rows := Cas(sh.rows, task, from, to)) else sh
  }

  function Step(pc: Pc, sh: Shared, e: Env): (Pc, Shared) {
    match pc
    case Begin(task, rid) =>
      if !(1 <= rid <= |sh.receipts|) then (Done(task, ReceiptNotFound), sh)
      else
        var r := sh.receipts[rid - 1];
        if r.task != task then (Done(task, ReceiptMismatch), sh)
        else if r.status != Verified then (Done(task, Returned(false)), sh)
        else (HasReceipt(r), sh)
    case HasReceipt(r) =>
      if r.task !in sh.rows then (Done(r.task, Returned(false)), sh) else (HasProposal(r, sh.rows[r.task].base), sh)
    case HasProposal(r, base) =>
      if r.task in sh.rows && sh.rows[r.task].state == PostPromotionVerified then (Done(r.task, Returned(true)), sh)
      else (NotFinal(r, base), sh)
    case NotFinal(r, base) =>
      if !e.clean then (Done(r.task, Returned(false)), sh) else (RepoClean(r, base), sh)
    case RepoClean(r, base) =>
      if !e.headKnown then (Done(r.task, Returned(false)), sh)
      else if sh.head != base && !IsAncestor(base, sh.head) then (Done(r.task, Returned(false)), sh)
      else (BaseOnBranch(r), sh)
    case BaseOnBranch(r) =>
      var sh' := Requested(sh, r.task, Verified, PromotionPending, e.pendingGov);
      (if e.pendingGov.Stable() then MarkedPending(r) else Done(r.task, Returned(false)), sh')
    case MarkedPending(r) =>
      (if e.checkoutOk then CheckedOut(r) else RollingBack(r), sh)
    case CheckedOut(r) =>
      var merged := MergeFastForward(sh.head, r.cand);
      if e.mergeRuns && merged.Some? then (Merged(r), sh.(head := merged.value)) else (RollingBack(r), sh)
    case RollingBack(r) =>
      (Done(r.task, Returned(false)), Requested(sh, r.task, PromotionPending, Verified, e.rollbackGov))
    case Merged(r) =>
      var sh' := Requested(sh, r.task, PromotionPending, Promoted, e.promotedGov);
      (if e.promotedGov.Stable() then MarkedPromoted(r) else Done(r.task, Returned(false)), sh')
    case MarkedPromoted(r) =>
      (if e.testsPass then TestsPassed(r) else TestsFailed(r), sh)
    case TestsFailed(r) =>
      (Done(r.task, Returned(false)), Requested(sh, r.task, Promoted, Rejected, e.rejectGov))
    case TestsPassed(r) =>
      (Done(r.task, Returned(e.finalGov.Stable())), Requested(sh, r.task, Promoted, PostPromotionVerified, e.finalGov))
    case Done(_, _) => (pc, sh)
  }

  lemma {:induction false} StepDescends(pc: Pc, sh: Shared, e: Env)
    requires !pc.Done?
    ensures Rank(Step(pc, sh, e).0) < Rank(pc)
  {
  }

  /** The uninterrupted rest of a promotion that nobody else disturbs. */
  function Finish(pc: Pc, sh: Shared, e: Env): (r: (Pc, Shared))
    ensures r.0.Done?
    decreases Rank(pc)
  {
    if pc.Done? then (pc, sh)
    else
      StepDescends(pc, sh, e);
      var (pc', sh') := Step(pc, sh, e);
      Finish(pc', sh', e)
  }

  /** One step of an undisturbed run; a finished one is its own result. */
  lemma {:induction false} FinishStep(pc: Pc, sh: Shared, e: Env, pc': Pc, sh': Shared)
    requires !pc.Done? && Step(pc, sh, e) == (pc', sh')
    ensures Finish(pc, sh, e) == Finish(pc', sh', e)
    ensures pc'.Done? ==> Finish(pc, sh, e) == (pc', sh')
  {
    StepDescends(pc, sh, e);
  }

  /** The same run cut off by a crash after at most n steps. */
  function Cut(pc: Pc, sh: Shared, e: Env, n: nat): (Pc, Shared)
    decreases n
  {
    if n == 0 then (pc, sh) else var (pc', sh') := Step(pc, sh, e); Cut(pc', sh', e, n - 1)
  }

  /** A VERIFIED receipt certifies the candidate of the sealed proposal of the same task. */
  ghost predicate SealedReceipt(r: Receipt, rows: Table) {
    r.status == Verified ==> r.task in rows && rows[r.task].cand == r.cand
  }

  ghost predicate SealedReceipts(sh: Shared) {
    forall r :: r in sh.receipts ==> SealedReceipt(r, sh.rows)
  }

  predicate OnBranch(sh: Shared, task: Task)
    requires task in sh.rows
  {
    IsAncestor(sh.rows[task].cand, sh.head)
  }

  /** One reconcile pass: pending rows are advanced or rolled back, except where git names no head. */
  function Reconciled(rows: Table, head: Commit, silent: set<Task>): (rows': Table)
    ensures rows'.Keys == rows.Keys
    ensures forall k :: k in rows' && rows'[k].state == PromotionPending ==> k in silent
    ensures forall k :: k in rows && rows[k].state != PromotionPending ==> rows'[k] == rows[k]
  {
    map k | k in rows :: if k in silent then rows[k] else ReconciledRow(rows[k], head)
  }

  function ReconciledRow(row: Row, head: Commit): Row {
    if row.state != PromotionPending then row
    else row.(state := if IsAncestor(row.cand, head) then PostPromotionVerified else Verified)
  }

  /** Passed over once, a row is settled by the next pass that sees it just as the first would have. */
  lemma {:induction false} SilentRowsWait(rows: Table, head: Commit, silent: set<Task>, later: set<Task>)
    ensures Reconciled(Reconciled(rows, head, silent), head, later) == Reconciled(rows, head, silent * later)
  {
    var once := Reconciled(rows, head, silent);
    forall k | k in rows
      ensures Reconciled(once, head, later)[k] == Reconciled(rows, head, silent * later)[k]
    {
      assert k in silent * later <==> k in silent && k in later;
    }
  }

  /** A reconcile loop under way: the rows in `todo` are untouched, all others are done or passed over. */
  ghost predicate PartlyReconciled(
      rows: Table, now: Table, todo: map<Task, Commit>, head: Commit, silent: set<Task>)
  {
    && now.Keys == rows.Keys
    && todo.Keys <= rows.Keys
    && (forall k :: k in todo ==> rows[k].state == PromotionPending && todo[k] == rows[k].cand)
    && (forall k :: k in rows ==> now[k] == if k in todo || k in silent then rows[k] else ReconciledRow(rows[k], head))
  }

  lemma {:induction false} ReconcileOne(
      rows: Table, now: Table, todo: map<Task, Commit>, head: Commit, silent: set<Task>, task: Task)
    requires PartlyReconciled(rows, now, todo, head, silent) && task in todo
    ensures var to := if IsAncestor(todo[task], head) then PostPromotionVerified else Verified;
            PartlyReconciled(rows, if task in silent then now else Cas(now, task, PromotionPending, to),
                             todo - {task}, head, silent)
  {
  }

  // ---- Crash atomicity of one promotion that starts at VERIFIED ----

  /** Where the row and the branch stand at each program counter of such a promotion. */
  ghost predicate FromVerified(pc: Pc, sh: Shared, task: Task) {
    && task in sh.rows
    && SealedReceipts(sh)
    && (!pc.Begin? && !pc.Done? ==> pc.r.task == task && pc.r.cand == sh.rows[task].cand)
    && (pc.Begin? ==> pc.task == task)
    && var s, merged := sh.rows[task].state, OnBranch(sh, task);
    match pc
    case Begin(_, _) => s == Verified && !merged
    case HasReceipt(_) => s == Verified && !merged
    case HasProposal(_, _) => s == Verified && !merged
    case NotFinal(_, _) => s == Verified && !merged
    case RepoClean(_, _) => s == Verified && !merged
    case BaseOnBranch(_) => s == Verified && !merged
    case MarkedPending(_) => s == PromotionPending && !merged
    case CheckedOut(_) => s == PromotionPending && !merged
    case RollingBack(_) => s == PromotionPending && !merged
    case Merged(_) => s == PromotionPending && merged
    case MarkedPromoted(_) => s == Promoted && merged
    case TestsFailed(_) => s == Promoted && merged
    case TestsPassed(_) => s == Promoted && merged
    case Done(_, _) =>
      s == PromotionPending || (s == Verified && !merged) || ((OnBranchState(s) || s == Rejected) && merged)
  }

  lemma {:induction false} StepKeepsFromVerified(pc: Pc, sh: Shared, e: Env, task: Task)
    requires FromVerified(pc, sh, task)
    ensures FromVerified(Step(pc, sh, e).0, Step(pc, sh, e).1, task)
    ensures Step(pc, sh, e).1.receipts == sh.receipts
    ensures Step(pc, sh, e).1.rows.Keys == sh.rows.Keys
    ensures forall k :: k in sh.rows && k != task ==> Step(pc, sh, e).1.rows[k] == sh.rows[k]
    ensures IsAncestor(sh.head, Step(pc, sh, e).1.head)
  {
    if pc.CheckedOut? { MergeKeepsHistory(sh.head, pc.r.cand, sh.head); }
    if pc.Begin? && 1 <= pc.receiptId <= |sh.receipts| { assert sh.receipts[pc.receiptId - 1] in sh.receipts; }
  }

  lemma {:induction false} CutKeepsFromVerified(pc: Pc, sh: Shared, e: Env, n: nat, task: Task)
    requires FromVerified(pc, sh, task)
    ensures FromVerified(Cut(pc, sh, e, n).0, Cut(pc, sh, e, n).1, task)
    ensures Cut(pc, sh, e, n).1.rows.Keys == sh.rows.Keys
    ensures forall k :: k in sh.rows && k != task ==> Cut(pc, sh, e, n).1.rows[k] == sh.rows[k]
    decreases n
  {
    if n > 0 {
      StepKeepsFromVerified(pc, sh, e, task);
      CutKeepsFromVerified(Step(pc, sh, e).0, Step(pc, sh, e).1, e, n - 1, task);
    }
  }

  /**
   Crash atomicity: cut a promotion off after any step, run one reconcile pass, and the row is
   VERIFIED exactly when the candidate is not on the branch. Nothing is left pending, a second
   pass changes nothing, and no other row that was not itself pending has moved.
   */
  lemma {:induction false} CrashThenReconcile(sh: Shared, task: Task, receiptId: nat, e: Env, n: nat)
    requires SealedReceipts(sh) && task in sh.rows
    requires sh.rows[task].state == Verified && !OnBranch(sh, task)
    ensures
      var crashed := Cut(Begin(task, receiptId), sh, e, n).1;
      var rows' := Reconciled(crashed.rows, crashed.head, {});
      && rows'.Keys == sh.rows.Keys
      && (rows'[task].state == Verified <==> !IsAncestor(sh.rows[task].cand, crashed.head))
      && (forall k :: k in rows' ==> rows'[k].state != PromotionPending)
      && Reconciled(rows', crashed.head, {}) == rows'
      && (forall k :: k in rows' && k != task && sh.rows[k].state != PromotionPending ==> rows'[k] == sh.rows[k])
  {
    CutKeepsFromVerified(Begin(task, receiptId), sh, e, n, task);
    CutKeepsCandidates(Begin(task, receiptId), sh, e, n);
  }

  lemma {:induction false} CutKeepsCandidates(pc: Pc, sh: Shared, e: Env, n: nat)
    ensures Cut(pc, sh, e, n).1.rows.Keys == sh.rows.Keys
    ensures forall k :: k in sh.rows ==> Cut(pc, sh, e, n).1.rows[k].cand == sh.rows[k].cand
    decreases n
  {
    if n > 0 { CutKeepsCandidates(Step(pc, sh, e).0, Step(pc, sh, e).1, e, n - 1); }
  }

  // ---- What the boolean result of an undisturbed promotion means ----

  /** Entry states from which the compare-and-swap chain can reach POST_PROMOTION_VERIFIED. */
  predicate CanAdvance(entry: State) {
    entry.Verified? || entry.PromotionPending? || entry.Promoted?
  }

  ghost predicate EnteredAt(pc: Pc, s: State, entry: State) {
    if !CanAdvance(entry) then s == entry
    else match pc
      case MarkedPending(_) => s == PromotionPending || s == Promoted
      case CheckedOut(_) => s == PromotionPending || s == Promoted
      case RollingBack(_) => s == PromotionPending || s == Promoted
      case Merged(_) => s == PromotionPending || s == Promoted
      case MarkedPromoted(_) => s == Promoted
      case TestsFailed(_) => s == Promoted
      case TestsPassed(_) => s == Promoted
      case Done(_, out) => out == Returned(true) <==> s == PostPromotionVerified
      case _ => s == entry
  }

  ghost predicate Owned(pc: Pc, task: Task) {
    match pc
    case Begin(t, _) => t == task
    case Done(t, _) => t == task
    case _ => pc.r.task == task
  }

  lemma {:induction false} FinishMeansAdvanced(pc: Pc, sh: Shared, e: Env, task: Task, entry: State)
    requires task in sh.rows && Owned(pc, task) && EnteredAt(pc, sh.rows[task].state, entry)
    ensures var (done, sh') := Finish(pc, sh, e);
      task in sh'.rows && Owned(done, task) && EnteredAt(done, sh'.rows[task].state, entry)
    decreases Rank(pc)
  {
    if !pc.Done? {
      StepDescends(pc, sh, e);
      FinishMeansAdvanced(Step(pc, sh, e).0, Step(pc, sh, e).1, e, task, entry);
    }
  }

  /**
   For a sole writer, True means POST_PROMOTION_VERIFIED exactly when the entry state was VERIFIED,
   PROMOTION_PENDING, PROMOTED or already final; from the other four states the row never moves.
   */
  lemma {:induction false} ResultMeansFinal(sh: Shared, task: Task, receiptId: nat, e: Env)
    requires task in sh.rows
    ensures
      var entry := sh.rows[task].state;
      var (done, sh') := Finish(Begin(task, receiptId), sh, e);
      && task in sh'.rows
      && (CanAdvance(entry) ==> (done.out == Returned(true) <==> sh'.rows[task].state == PostPromotionVerified))
      && (!CanAdvance(entry) ==> sh'.rows[task].state == entry)
      && (done.out == Returned(true) ==>
           (sh'.rows[task].state == PostPromotionVerified <==> CanAdvance(entry) || entry == PostPromotionVerified))
  {
    FinishMeansAdvanced(Begin(task, receiptId), sh, e, task, sh.rows[task].state);
  }

  const STEADY := GovernanceReads("", "")
  const ALL_GOOD := Env(true, true, true, true, true, STEADY, STEADY, STEADY, STEADY, STEADY)

  /** A promotion whose receipt, base and candidate are in order and whose commands all succeed. */
  ghost predicate OnCourse(pc: Pc, sh: Shared, task: Task) {
    && task in sh.rows && Owned(pc, task)
    && match pc
       case Begin(_, rid) =>
         && 1 <= rid <= |sh.receipts|
         && sh.receipts[rid - 1].task == task && sh.receipts[rid - 1].status == Verified
         && MergeFastForward(sh.head, sh.receipts[rid - 1].cand).Some?
         && IsAncestor(sh.rows[task].base, sh.head)
       case HasReceipt(r) => MergeFastForward(sh.head, r.cand).Some? && IsAncestor(sh.rows[task].base, sh.head)
       case HasProposal(r, base) => MergeFastForward(sh.head, r.cand).Some? && IsAncestor(base, sh.head)
       case NotFinal(r, base) => MergeFastForward(sh.head, r.cand).Some? && IsAncestor(base, sh.head)
       case RepoClean(r, base) => MergeFastForward(sh.head, r.cand).Some? && IsAncestor(base, sh.head)
       case BaseOnBranch(r) => MergeFastForward(sh.head, r.cand).Some?
       case MarkedPending(r) => MergeFastForward(sh.head, r.cand).Some?
       case CheckedOut(r) => MergeFastForward(sh.head, r.cand).Some?
       case RollingBack(_) => false
       case TestsFailed(_) => false
       case Done(_, out) => out == Returned(true)
       case _ => true
  }

  lemma {:induction false} OnCourseReturnsTrue(pc: Pc, sh: Shared, task: Task)
    requires OnCourse(pc, sh, task)
    ensures Finish(pc, sh, ALL_GOOD).0.out == Returned(true)
    decreases Rank(pc)
  {
    if !pc.Done? {
      StepDescends(pc, sh, ALL_GOOD);
      OnCourseReturnsTrue(Step(pc, sh, ALL_GOOD).0, Step(pc, sh, ALL_GOOD).1, task);
    }
  }

  /**
   The other four states are reachable failures of "True means final": with every command succeeding,
   promote returns True from any entry state, while the swallowed moves leave the row where it was.
   */
  lemma {:induction false} SwallowedMovesStillReturnTrue(sh: Shared, task: Task, receiptId: nat)
    requires OnCourse(Begin(task, receiptId), sh, task) && !CanAdvance(sh.rows[task].state)
    ensures var (done, sh') := Finish(Begin(task, receiptId), sh, ALL_GOOD);
      && done.out == Returned(true)
      && task in sh'.rows && sh'.rows[task].state == sh.rows[task].state
  {
    OnCourseReturnsTrue(Begin(task, receiptId), sh, task);
    ResultMeansFinal(sh, task, receiptId, ALL_GOOD);
  }

  ghost predicate HeadedFor(pc: Pc, sh: Shared, task: Task, target: Commit) {
    && task in sh.rows
    && match pc
       case Begin(_, rid) =>
         && sh.rows[task].state != PostPromotionVerified
         && 1 <= rid <= |sh.receipts| && MergeFastForward(sh.head, sh.receipts[rid - 1].cand) == Some(target)
       case HasReceipt(r) =>
         sh.rows[task].state != PostPromotionVerified && MergeFastForward(sh.head, r.cand) == Some(target)
       case HasProposal(r, _) =>
         sh.rows[task].state != PostPromotionVerified && MergeFastForward(sh.head, r.cand) == Some(target)
       case NotFinal(r, _) => MergeFastForward(sh.head, r.cand) == Some(target)
       case RepoClean(r, _) => MergeFastForward(sh.head, r.cand) == Some(target)
       case BaseOnBranch(r) => MergeFastForward(sh.head, r.cand) == Some(target)
       case MarkedPending(r) => MergeFastForward(sh.head, r.cand) == Some(target)
       case CheckedOut(r) => MergeFastForward(sh.head, r.cand) == Some(target)
       case _ => sh.head == target
  }

  lemma {:induction false} OnCourseReachesTarget(pc: Pc, sh: Shared, task: Task, target: Commit)
    requires OnCourse(pc, sh, task) && HeadedFor(pc, sh, task, target)
    ensures var (_, sh') := Finish(pc, sh, ALL_GOOD);
      sh'.head == target && task in sh'.rows && sh'.rows[task].cand == sh.rows[task].cand
    decreases Rank(pc)
  {
    if !pc.Done? {
      StepDescends(pc, sh, ALL_GOOD);
      OnCourseReachesTarget(Step(pc, sh, ALL_GOOD).0, Step(pc, sh, ALL_GOOD).1, task, target);
    }
  }

  /**
   `promote` compares only task ids. If every command succeeds, the final state it stores tells the
   truth about the sealed candidate exactly when merging the receipt's candidate brings the sealed one
   along; a receipt for an unrelated candidate therefore ends POST_PROMOTION_VERIFIED and unmerged.
   */
  lemma {:induction false} UnsealedReceiptExactly(sh: Shared, task: Task, receiptId: nat)
    requires OnCourse(Begin(task, receiptId), sh, task) && CanAdvance(sh.rows[task].state)
    ensures
      var target := MergeFastForward(sh.head, sh.receipts[receiptId - 1].cand).value;
      var (_, sh') := Finish(Begin(task, receiptId), sh, ALL_GOOD);
      && task in sh'.rows && sh'.rows[task].state == PostPromotionVerified
      && (OnBranch(sh', task) <==> IsAncestor(sh.rows[task].cand, target))
  {
    var target := MergeFastForward(sh.head, sh.receipts[receiptId - 1].cand).value;
    OnCourseReturnsTrue(Begin(task, receiptId), sh, task);
    ResultMeansFinal(sh, task, receiptId, ALL_GOOD);
    OnCourseReachesTarget(Begin(task, receiptId), sh, task, target);
  }

  // ---- Where an undisturbed promotion ends, in full ----

  /** The refusals before anything is written, in the order they are looked for; none of them means go ahead. */
  function Refusal(sh: Shared, task: Task, receiptId: nat, e: Env): Option<Outcome> {
    if receiptId == 0 || receiptId > |sh.receipts| then Some(ReceiptNotFound)
    else if sh.receipts[receiptId - 1].task != task then Some(ReceiptMismatch)
    else if sh.receipts[receiptId - 1].status != Verified || task !in sh.rows then Some(Returned(false))
    else if sh.rows[task].state == PostPromotionVerified then Some(Returned(true))
    else if !e.clean || !e.headKnown || !IsAncestor(sh.rows[task].base, sh.head) then Some(Returned(false))
    else if !e.pendingGov.Stable() then Some(Returned(false))
    else None
  }

  /** Where the row ends once the first transition request was accepted. */
  function Landing(entry: State, merges: bool, e: Env): State {
    match entry
    case Verified =>
      if !merges then if e.rollbackGov.Stable() then Verified else PromotionPending
      else if !e.promotedGov.Stable() then PromotionPending
      else Tested(e)
    case PromotionPending =>
      if !merges then if e.rollbackGov.Stable() then Verified else PromotionPending
      else if !e.promotedGov.Stable() then PromotionPending
      else Tested(e)
    case Promoted => if merges && e.promotedGov.Stable() then Tested(e) else Promoted
    case other => other
  }

  /** The end of a row that reached PROMOTED before the test suite ran. */
  function Tested(e: Env): State {
    match (e.testsPass, e.finalGov.Stable(), e.rejectGov.Stable())
    case (true, true, _) => PostPromotionVerified
    case (true, false, _) => Promoted
    case (false, _, true) => Rejected
    case (false, _, false) => Promoted
  }

  /** The fast-forward the promotion performs, if checkout and merge go through. */
  function MergedHead(head: Commit, cand: Commit, e: Env): Option<Commit> {
    if e.checkoutOk && e.mergeRuns then MergeFastForward(head, cand) else None
  }

  /** The tables, the head and the answer after an undisturbed promotion. */
  ghost predicate PromotionEnds(sh: Shared, task: Task, receiptId: nat, e: Env, out: Outcome, sh': Shared) {
    var refusal := Refusal(sh, task, receiptId, e);
    if refusal.Some? then out == refusal.value && sh' == sh
    else
      var row, merged := sh.rows[task], MergedHead(sh.head, sh.receipts[receiptId - 1].cand, e);
      && (out == Returned(true) <==> merged.Some? && e.promotedGov.Stable() && e.testsPass && e.finalGov.Stable())
      && out.Returned?
      && sh'.head == (if merged.Some? then merged.value else sh.head)
      && sh'.rows == sh.rows[task := row.(state := Landing(row.state, merged.Some?, e))]
      && sh'.receipts == sh.receipts
  }

  /** The shared state with one row's state changed. */
  function At(sh: Shared, task: Task, s: State): Shared
    requires task in sh.rows
  {
    sh.(rows := sh.rows[task := sh.rows[task].(state := s)])
  }

  lemma {:induction false} AtItself(sh: Shared, task: Task, s: State, t: State)
    requires task in sh.rows
    ensures At(At(sh, task, s), task, t) == At(sh, task, t)
    ensures At(sh, task, sh.rows[task].state) == sh
  {
    assert sh.rows[task := sh.rows[task]] == sh.rows;
    assert sh.rows[task := sh.rows[task].(state := s)][task := sh.rows[task].(state := t)]
        == sh.rows[task := sh.rows[task].(state := t)];
  }

  lemma {:induction false} RequestedAt(sh: Shared, task: Task, from: State, to: State, gov: GovernanceReads)
    requires task in sh.rows && Legal(from, to)
    ensures Requested(sh, task, from, to, gov) ==
            At(sh, task, if gov.Stable() && sh.rows[task].state == from then to else sh.rows[task].state)
  {
    AtItself(sh, task, from, to);
  }

  lemma {:induction false} EndsFromTests(r: Receipt, sh: Shared, e: Env)
    requires r.task in sh.rows
    ensures var s := sh.rows[r.task].state;
            Finish(MarkedPromoted(r), sh, e) ==
            (Done(r.task, Returned(e.testsPass && e.finalGov.Stable())),
             At(sh, r.task, if s == Promoted then Tested(e) else s))
  {
    var next := if e.testsPass then TestsPassed(r) else TestsFailed(r);
    FinishStep(MarkedPromoted(r), sh, e, next, sh);
    RequestedAt(sh, r.task, Promoted, Rejected, e.rejectGov);
    RequestedAt(sh, r.task, Promoted, PostPromotionVerified, e.finalGov);
    FinishStep(next, sh, e, Step(next, sh, e).0, Step(next, sh, e).1);
  }

  lemma {:induction false} EndsFromMerge(r: Receipt, sh: Shared, e: Env)
    requires r.task in sh.rows
    ensures var s := sh.rows[r.task].state;
            Finish(Merged(r), sh, e) ==
            (Done(r.task, Returned(e.promotedGov.Stable() && e.testsPass && e.finalGov.Stable())),
             At(sh, r.task,
                if e.promotedGov.Stable() && (s == PromotionPending || s == Promoted) then Tested(e) else s))
  {
    var s := sh.rows[r.task].state;
    RequestedAt(sh, r.task, PromotionPending, Promoted, e.promotedGov);
    var (next, sh') := Step(Merged(r), sh, e);
    FinishStep(Merged(r), sh, e, next, sh');
    if e.promotedGov.Stable() {
      EndsFromTests(r, sh', e);
      AtItself(sh, r.task, if s == PromotionPending then Promoted else s,
               if s == PromotionPending || s == Promoted then Tested(e) else s);
    }
  }

  lemma {:induction false} EndsFromRollback(r: Receipt, sh: Shared, e: Env)
    requires r.task in sh.rows
    ensures var s := sh.rows[r.task].state;
            Finish(RollingBack(r), sh, e) ==
            (Done(r.task, Returned(false)),
             At(sh, r.task, if e.rollbackGov.Stable() && s == PromotionPending then Verified else s))
  {
    RequestedAt(sh, r.task, PromotionPending, Verified, e.rollbackGov);
    FinishStep(RollingBack(r), sh, e, Step(RollingBack(r), sh, e).0, Step(RollingBack(r), sh, e).1);
  }

  lemma {:induction false} EndsFromPending(r: Receipt, sh: Shared, e: Env)
    requires r.task in sh.rows
    ensures var merged := MergedHead(sh.head, r.cand, e);
            Finish(MarkedPending(r), sh, e) ==
            if merged.Some? then Finish(Merged(r), sh.(head := merged.value), e) else Finish(RollingBack(r), sh, e)
  {
    var next := if e.checkoutOk then CheckedOut(r) else RollingBack(r);
    FinishStep(MarkedPending(r), sh, e, next, sh);
    if e.checkoutOk { FinishStep(next, sh, e, Step(next, sh, e).0, Step(next, sh, e).1); }
  }

  lemma {:induction false} EndsFromBase(r: Receipt, sh: Shared, e: Env)
    requires r.task in sh.rows && e.pendingGov.Stable() && sh.rows[r.task].state != PostPromotionVerified
    ensures var s, merged := sh.rows[r.task].state, MergedHead(sh.head, r.cand, e);
            Finish(BaseOnBranch(r), sh, e) ==
            (Done(r.task, Returned(merged.Some? && e.promotedGov.Stable() && e.testsPass && e.finalGov.Stable())),
             At(sh.(head := if merged.Some? then merged.value else sh.head), r.task, Landing(s, merged.Some?, e)))
  {
    var s, merged := sh.rows[r.task].state, MergedHead(sh.head, r.cand, e);
    var pending := At(sh, r.task, if s == Verified then PromotionPending else s);
    RequestedAt(sh, r.task, Verified, PromotionPending, e.pendingGov);
    FinishStep(BaseOnBranch(r), sh, e, MarkedPending(r), pending);
    EndsFromPending(r, pending, e);
    AtItself(sh, r.task, pending.rows[r.task].state, Landing(s, merged.Some?, e));
    if merged.Some? { EndsFromMerge(r, pending.(head := merged.value), e); } else { EndsFromRollback(r, pending, e); }
  }

  lemma {:induction false} EndsFromReceipt(r: Receipt, sh: Shared, e: Env)
    requires r.task in sh.rows
    ensures var row := sh.rows[r.task];
            Finish(HasReceipt(r), sh, e) ==
            if row.state == PostPromotionVerified then (Done(r.task, Returned(true)), sh)
            else if !e.clean || !e.headKnown || !IsAncestor(row.base, sh.head) || !e.pendingGov.Stable()
            then (Done(r.task, Returned(false)), sh)
            else Finish(BaseOnBranch(r), sh, e)
  {
    var row := sh.rows[r.task];
    FinishStep(HasReceipt(r), sh, e, HasProposal(r, row.base), sh);
    FinishStep(HasProposal(r, row.base), sh, e, Step(HasProposal(r, row.base), sh, e).0, sh);
    if row.state != PostPromotionVerified {
      FinishStep(NotFinal(r, row.base), sh, e, Step(NotFinal(r, row.base), sh, e).0, sh);
      if e.clean {
        FinishStep(RepoClean(r, row.base), sh, e, Step(RepoClean(r, row.base), sh, e).0, sh);
        if !e.pendingGov.Stable() { FinishStep(BaseOnBranch(r), sh, e, Done(r.task, Returned(false)), sh); }
      }
    }
  }

  /**
   The whole of `promote` for a sole writer. In particular failing tests end the row REJECTED with the head moved,
   a failing checkout or merge ends it VERIFIED with the head where it was, and every refusal changes nothing.
   */
  lemma {:induction false} PromotionEndsExactly(sh: Shared, task: Task, receiptId: nat, e: Env)
    ensures var (done, sh') := Finish(Begin(task, receiptId), sh, e);
            done.owner == task && PromotionEnds(sh, task, receiptId, e, done.out, sh')
  {
    var (next, same) := Step(Begin(task, receiptId), sh, e);
    FinishStep(Begin(task, receiptId), sh, e, next, same);
    if next.HasReceipt? {
      var r := next.r;
      if task in sh.rows {
        EndsFromReceipt(r, sh, e);
        if Refusal(sh, task, receiptId, e).None? { EndsFromBase(r, sh, e); }
      } else {
        FinishStep(next, sh, e, Done(task, Returned(false)), sh);
      }
    }
  }

  // ---- The coordinator itself ----

  class GitRepo {
    var head: Commit

    constructor (head: Commit)
      ensures this.head == head
    {
      this.head := head;
    }

    /** `git merge --ff-only`; `runs` is false when git fails for a reason of its own. */
    method MergeFfOnly(cand: Commit, runs: bool) returns (ok: bool)
      modifies this
      ensures ok <==> runs && MergeFastForward(old(head), cand).Some?
      ensures head == if ok then MergeFastForward(old(head), cand).value else old(head)
    {
      ok := false;
      if runs {
        var merged := MergeFastForward(head, cand);
        if merged.Some? { head, ok := merged.value, true; }
      }
    }
  }

  class PromotionCoordinator {
    const db: KernelDatabase
    const repo: GitRepo
    const engine: PrivilegedTransitionEngine

    constructor (db: KernelDatabase, repo: GitRepo, engine: PrivilegedTransitionEngine)
      requires engine.db == db && engine.authority.Valid()
      requires forall id :: id in engine.spent ==> id < engine.authority.nextId
      ensures Valid() && this.db == db && this.repo == repo && this.engine == engine
    {
      this.db, this.repo, this.engine := db, repo, engine;
    }

    ghost predicate Valid()
      reads this, engine, engine.authority
    {
      && engine.db == db
      && engine.authority.Valid()
      && forall id :: id in engine.spent ==> id < engine.authority.nextId
    }

    ghost function Now(): Shared
      reads this, db, repo
    {
      Shared(db.proposals, db.receipts, repo.head)
    }

    /** Signs a fresh witness for the move and submits it: only unstable governance can reject a legal move. */
    method RequestTransition(task: Task, from: State, to: State, r: Receipt, gov: GovernanceReads)
      returns (accepted: bool)
      requires Valid()
      modifies db, engine, engine.authority
      ensures Valid()
      ensures accepted <==> Legal(from, to) && gov.Stable()
      ensures Now() == if Legal(from, to) then Requested(old(Now()), task, from, to, gov) else old(Now())
    {
      var claim := Claim(task, from, to, r.cand.sha, r.tree, r.spec, r.tests, r.trace, "PROMOTION", gov.signed);
      var w := engine.authority.Issue("loop_engine.promoter", Sha(ClaimText(claim)), "PROMOTION");
      var v := engine.ExecuteTransition(Request(claim, w), gov.current);
      accepted := v.Accepted?;
    }

    /** Runs alone, `promote` is exactly the uninterrupted run of `Step`, and ends as described in full above. */
    method Promote(task: Task, receiptId: nat, e: Env) returns (out: Outcome)
      requires Valid()
      modifies db, repo, engine, engine.authority
      ensures Valid()
      ensures (Done(task, out), Now()) == Finish(Begin(task, receiptId), old(Now()), e)
      ensures PromotionEnds(old(Now()), task, receiptId, e, out, Now())
    {
      ghost var sh := Now();
      PromotionEndsExactly(sh, task, receiptId, e);
      if !(1 <= receiptId <= |db.receipts|) {
        FinishStep(Begin(task, receiptId), sh, e, Done(task, ReceiptNotFound), sh);
        return ReceiptNotFound;
      }
      var r := db.receipts[receiptId - 1];
      if r.task != task {
        FinishStep(Begin(task, receiptId), sh, e, Done(task, ReceiptMismatch), sh);
        return ReceiptMismatch;
      }
      if r.status != Verified {
        FinishStep(Begin(task, receiptId), sh, e, Done(task, Returned(false)), sh);
        return Returned(false);
      }
      FinishStep(Begin(task, receiptId), sh, e, HasReceipt(r), sh);
      out := PromoteFromReceipt(r, e);
    }

    /** The preconditions of `promote` up to the first transition request. */
    method PromoteFromReceipt(r: Receipt, e: Env) returns (out: Outcome)
      requires Valid()
      modifies db, repo, engine, engine.authority
      ensures Valid()
      ensures (Done(r.task, out), Now()) == Finish(HasReceipt(r), old(Now()), e)
    {
      ghost var sh := Now();
      out := Returned(false);
      if r.task !in db.proposals {
        FinishStep(HasReceipt(r), sh, e, Done(r.task, out), sh);
        return;
      }
      var base := db.proposals[r.task].base;
      FinishStep(HasReceipt(r), sh, e, HasProposal(r, base), sh);
      if db.proposals[r.task].state == PostPromotionVerified {
        FinishStep(HasProposal(r, base), sh, e, Done(r.task, Returned(true)), sh);
        return Returned(true);
      }
      FinishStep(HasProposal(r, base), sh, e, NotFinal(r, base), sh);
      if !e.clean {
        FinishStep(NotFinal(r, base), sh, e, Done(r.task, out), sh);
        return;
      }
      FinishStep(NotFinal(r, base), sh, e, RepoClean(r, base), sh);
      if !e.headKnown || (repo.head != base && !IsAncestor(base, repo.head)) {
        FinishStep(RepoClean(r, base), sh, e, Done(r.task, out), sh);
        return;
      }
      FinishStep(RepoClean(r, base), sh, e, BaseOnBranch(r), sh);
      out := PromoteFromBase(r, e);
    }

    /** The privileged part of `promote`, from the first transition request to the merge. */
    method PromoteFromBase(r: Receipt, e: Env) returns (out: Outcome)
      requires Valid()
      modifies db, repo, engine, engine.authority
      ensures Valid()
      ensures (Done(r.task, out), Now()) == Finish(BaseOnBranch(r), old(Now()), e)
    {
      ghost var sh0 := Now();
      var ok := RequestTransition(r.task, Verified, PromotionPending, r, e.pendingGov);
      ghost var sh1 := Now();
      if !ok {
        FinishStep(BaseOnBranch(r), sh0, e, Done(r.task, Returned(false)), sh1);
        return Returned(false);
      }
      FinishStep(BaseOnBranch(r), sh0, e, MarkedPending(r), sh1);
      if !e.checkoutOk {
        FinishStep(MarkedPending(r), sh1, e, RollingBack(r), sh1);
        out := RollBack(r, e);
        return;
      }
      FinishStep(MarkedPending(r), sh1, e, CheckedOut(r), sh1);
      ok := repo.MergeFfOnly(r.cand, e.mergeRuns);
      if !ok {
        FinishStep(CheckedOut(r), sh1, e, RollingBack(r), Now());
        out := RollBack(r, e);
        return;
      }
      FinishStep(CheckedOut(r), sh1, e, Merged(r), Now());
      out := PromoteFromMerge(r, e);
    }

    method RollBack(r: Receipt, e: Env) returns (out: Outcome)
      requires Valid()
      modifies db, engine, engine.authority
      ensures Valid()
      ensures (Done(r.task, out), Now()) == Finish(RollingBack(r), old(Now()), e)
    {
      ghost var sh := Now();
      var _ := RequestTransition(r.task, PromotionPending, Verified, r, e.rollbackGov);
      FinishStep(RollingBack(r), sh, e, Done(r.task, Returned(false)), Now());
      out := Returned(false);
    }

    method PromoteFromMerge(r: Receipt, e: Env) returns (out: Outcome)
      requires Valid()
      modifies db, engine, engine.authority
      ensures Valid()
      ensures (Done(r.task, out), Now()) == Finish(Merged(r), old(Now()), e)
    {
      ghost var sh0 := Now();
      var ok := RequestTransition(r.task, PromotionPending, Promoted, r, e.promotedGov);
      ghost var sh1 := Now();
      if !ok {
        FinishStep(Merged(r), sh0, e, Done(r.task, Returned(false)), sh1);
        return Returned(false);
      }
      FinishStep(Merged(r), sh0, e, MarkedPromoted(r), sh1);
      if !e.testsPass {
        FinishStep(MarkedPromoted(r), sh1, e, TestsFailed(r), sh1);
        ok := RequestTransition(r.task, Promoted, Rejected, r, e.rejectGov);
        FinishStep(TestsFailed(r), sh1, e, Done(r.task, Returned(false)), Now());
        return Returned(false);
      }
      FinishStep(MarkedPromoted(r), sh1, e, TestsPassed(r), sh1);
      ok := RequestTransition(r.task, Promoted, PostPromotionVerified, r, e.finalGov);
      FinishStep(TestsPassed(r), sh1, e, Done(r.task, Returned(ok)), Now());
      out := Returned(ok);
    }

    /** Walks the pending rows in whatever order the query lists them; for the silent ones git names no head. */
    method ReconcileInterruptedPromotions(silent: set<Task>)
      modifies db
      ensures db.proposals == Reconciled(old(db.proposals), repo.head, silent)
      ensures db.receipts == old(db.receipts)
    {
      ghost var rows := db.proposals;
      var todo := db.GetPendingPromotions();
      while todo != map[]
        invariant PartlyReconciled(rows, db.proposals, todo, repo.head, silent) && db.receipts == old(db.receipts)
        decreases |todo|
      {
        var task :| task in todo;
        var to := if IsAncestor(todo[task], repo.head) then PostPromotionVerified else Verified;
        ReconcileOne(rows, db.proposals, todo, repo.head, silent, task);
        todo := todo - {task};
        if task in silent { continue; }
        var moved := db.RawTransition(task, PromotionPending, to);
        assert moved.Ok?;
      }
    }
  }
}
