/** Route execution: steps run or are resumed from verified artifacts, chained by content hashes. */
module Router {
  import opened Common
  import opened Artifacts

  datatype RouteStep = RouteStep(
    id: string, domain: string, output: string, schema: string, producer: string, policy: string, needsApproval: bool)

  datatype RoutePlan = RoutePlan(hash: string, steps: seq<RouteStep>)

  datatype Parent = Parent(run: string, commit: string)

  datatype Input = Objective | Payload(artifact: Artifact)

  /** What a runner is handed: the current input, and the artifact and hash it descends from. */
  datatype View = View(input: Input, artifact: Option<Id>, hash: Digest)

  /** A governed step; a success may come without an artifact, and a missing runner raises. */
  datatype StepOutcome = Succeeded(artifact: Option<Artifact>) | Aborted | RunnerRaised

  type Runner = (RouteStep, View) -> StepOutcome

  /** Whether a stored payload can be read back as an artifact of this kind. */
  type Reader = (string, Artifact) -> bool

  datatype Progress = Progress(
    custody: Custody, completed: seq<string>, cached: seq<string>, ran: seq<string>, view: View,
        finalKind: Option<string>)

  datatype Status = Success | Escalated | AwaitingApproval | Raised

  datatype Stride = On(p: Progress) | Stop(status: Status, step: string, p: Progress)

  function Start(c: Custody): Progress {
    Progress(c, [], [], [], View(Objective, None, Zero), None)
  }

  function KeyOf(plan: RoutePlan, parent: Parent, step: RouteStep, source: Digest, schema: string): Key {
    Key(parent.run, plan.hash, step.id, source, parent.commit, step.producer, step.policy, schema)
  }

  predicate Loadable(kind: string) {
    kind in ["StructuredSourceArtifact", "MasterAVScriptArtifact", "ProductionPlanDAGArtifact"]
  }

  function Cached(plan: RoutePlan, parent: Parent, step: RouteStep, p: Progress): Option<Record> {
    FindVerified(p.custody, KeyOf(plan, parent, step, p.view.hash, step.schema))
  }

  /** A payload of a known kind is read back; one that is missing or cannot be read ends the execution. */
  function FromCache(step: RouteStep, canRead: Reader, rec: Record, p: Progress): Stride {
    if rec.id !in p.custody.files then Stop(Raised, step.id, p)
    else if Loadable(step.output) && !canRead(step.output, p.custody.files[rec.id]) then Stop(Raised, step.id, p)
    else
      var input := if Loadable(step.output) then Payload(p.custody.files[rec.id]) else p.view.input;
      On(p.(completed := p.completed + [step.id], cached := p.cached + [step.id],
            view := View(input, Some(rec.id), rec.content), finalKind := Some(rec.kind)))
  }

  /** Staged, then moved to verified and to promoted. */
  function Register(c: Custody, key: Key, domain: string, a: Artifact): (Option<Custody>, Record) {
    var (staged, rec) := Stage(c, key, domain, a);
    match MoveTo(staged, rec.id, Verified)
    case None => (None, rec)
    case Some(verified) => (MoveTo(verified, rec.id, PromotedState), rec)
  }

  function AfterSuccess(plan: RoutePlan, parent: Parent, step: RouteStep, made: Option<Artifact>, p: Progress): Stride {
    var q := p.(completed := p.completed + [step.id], ran := p.ran + [step.id]);
    match made
    case None => On(q)
    case Some(a) =>
      var (custody, rec) := Register(p.custody, KeyOf(plan, parent, step, p.view.hash, a.schema), step.domain, a);
      if custody.None? then Stop(Raised, step.id, q)
      else On(q.(custody := custody.value, view := View(Payload(a), Some(rec.id), rec.content),
          finalKind := Some(step.output)))
  }

  function Take(
      plan: RoutePlan, parent: Parent, step: RouteStep, resume: bool, canRead: Reader, run: Runner, p: Progress): Stride
  {
    var hit := if resume then Cached(plan, parent, step, p) else None;
    if hit.Some? then FromCache(step, canRead, hit.value, p)
    else if step.needsApproval then Stop(AwaitingApproval, step.id, p)
    else match run(step, p.view)
      case RunnerRaised => Stop(Raised, step.id, p)
      case Aborted => Stop(Escalated, step.id, p.(ran := p.ran + [step.id]))
      case Succeeded(made) => AfterSuccess(plan, parent, step, made, p)
  }

  /** One execution: the plan, its parent run, whether it resumes, what can be read back, and what the runners do. */
  datatype Execution = Execution(plan: RoutePlan, parent: Parent, resume: bool, canRead: Reader, run: Runner)

  type Strider = (RouteStep, Progress) -> Stride

  function StriderOf(x: Execution): Strider {
    (step, p) => Take(x.plan, x.parent, step, x.resume, x.canRead, x.run, p)
  }

  function TakeAll(steps: seq<RouteStep>, stride: Strider, p: Progress, n: nat): Stride
    requires n <= |steps|
  {
    if n == 0 then On(p)
    else match TakeAll(steps, stride, p, n - 1)
      case Stop(status, step, q) => Stop(status, step, q)
      case On(q) => stride(steps[n - 1], q)
  }

  /** The state of an execution, begun on some custody, after n steps. */
  function After(x: Execution, c: Custody, n: nat): Stride
    requires n <= |x.plan.steps|
  {
    TakeAll(x.plan.steps, StriderOf(x), Start(c), n)
  }

  function StepIds(steps: seq<RouteStep>, n: nat): (ids: seq<string>)
    requires n <= |steps|
    ensures |ids| == n && forall k :: 0 <= k < n ==> ids[k] == steps[k].id
  {
    if n == 0 then [] else StepIds(steps, n - 1) + [steps[n - 1].id]
  }

  // ---- Completed steps ----

  ghost predicate Counted(step: RouteStep, p: Progress, s: Stride) {
    if s.On? then s.p.completed == p.completed + [step.id] && |s.p.cached| + |s.p.ran| == |p.cached| + |p.ran| + 1
    else s.step == step.id && (s.status != Raised ==> s.p.completed == p.completed)
  }

  lemma {:induction false} TakeCounts(x: Execution, step: RouteStep, p: Progress)
    ensures Counted(step, p, StriderOf(x)(step, p))
    ensures !x.resume ==> StriderOf(x)(step, p).p.cached == p.cached
  {
  }

  /** Completed steps are a prefix of the plan, split into those run and those taken from the cache. */
  lemma {:induction false} CompletedIsPrefix(x: Execution, c: Custody, n: nat)
    requires n <= |x.plan.steps|
    ensures var s := After(x, c, n);
            if s.On? then s.p.completed == StepIds(x.plan.steps, n) && |s.p.cached| + |s.p.ran| == n
            else exists i :: 0 <= i < n && StoppedAt(x, c, s, i)
    ensures !x.resume ==> After(x, c, n).p.cached == []
  {
    if n > 0 {
      CompletedIsPrefix(x, c, n - 1);
      var before := After(x, c, n - 1);
      if before.On? {
        TakeCounts(x, x.plan.steps[n - 1], before.p);
        if After(x, c, n).Stop? { assert StoppedAt(x, c, After(x, c, n), n - 1); }
      } else {
        var i :| 0 <= i < n - 1 && StoppedAt(x, c, before, i);
        assert StoppedAt(x, c, After(x, c, n), i);
      }
    }
  }

  /** The execution stopped in step i, with the steps before it completed. */
  ghost predicate StoppedAt(x: Execution, c: Custody, s: Stride, i: nat)
    requires i < |x.plan.steps|
  {
    && After(x, c, i).On? && s.Stop? && s.step == x.plan.steps[i].id
    && (s.status != Raised ==> s.p.completed == StepIds(x.plan.steps, i))
  }

  /** A runner is called only for steps that need no approval. */
  ghost predicate Ungated(steps: seq<RouteStep>, ran: seq<string>) {
    forall id :: id in ran ==> exists k :: 0 <= k < |steps| && steps[k].id == id && !steps[k].needsApproval
  }

  lemma {:induction false} TakeRunsUngated(x: Execution, k: nat, p: Progress)
    requires k < |x.plan.steps| && Ungated(x.plan.steps, p.ran)
    ensures Ungated(x.plan.steps, StriderOf(x)(x.plan.steps[k], p).p.ran)
  {
  }

  /** However an execution goes, no step that requires approval is ever run by it. */
  lemma {:induction false} GatedStepsNeverRun(x: Execution, c: Custody, n: nat)
    requires n <= |x.plan.steps|
    ensures Ungated(x.plan.steps, After(x, c, n).p.ran)
  {
    if n > 0 {
      GatedStepsNeverRun(x, c, n - 1);
      var before := After(x, c, n - 1);
      if before.On? { TakeRunsUngated(x, n - 1, before.p); }
    }
  }

  // ---- What later steps keep ----

  predicate SameRecord(a: Record, b: Record) {
    a.id == b.id && a.kind == b.kind && a.content == b.content
  }

  /** Every record that could be resumed from still can be, with the same identity and content. */
  ghost predicate Keeps(c: Custody, d: Custody) {
    forall k :: FindVerified(c, k).Some? ==> FindVerified(d, k).Some? && SameRecord(c.rows[k], d.rows[k])
  }

  ghost predicate Evolves(c: Custody, d: Custody) {
    Filed(d) && Keeps(c, d) && (LedgerAgrees(c) ==> LedgerAgrees(d)) && c.events <= d.events
  }

  lemma {:induction false} KeepsTransitive(a: Custody, b: Custody, c: Custody)
    requires Keeps(a, b) && Keeps(b, c)
    ensures Keeps(a, c)
  {
    forall k | FindVerified(a, k).Some? ensures FindVerified(c, k).Some? && SameRecord(a.rows[k], c.rows[k]) {
      assert FindVerified(b, k).Some? && SameRecord(a.rows[k], b.rows[k]);
    }
  }

  /** The rows and files after registering: one row promoted, one file written. */
  lemma {:induction false} RegisterInFull(c: Custody, key: Key, domain: string, a: Artifact)
    requires Filed(c)
    ensures var (after, rec) := Register(c, key, domain, a);
            && rec == Stage(c, key, domain, a).1 && rec.id.key == key && after.Some?
            && after.value.rows == c.rows[key := rec.(state := PromotedState)]
            && after.value.files == c.files[Id(domain, key) := a]
  {
    var rec := Stage(c, key, domain, a).1;
    assert c.rows[key := rec][key := rec.(state := Verified)][key := rec.(state := PromotedState)]
        == c.rows[key := rec.(state := PromotedState)];
    assert c.rows[key := rec.(state := Verified)][key := rec.(state := PromotedState)]
        == c.rows[key := rec.(state := PromotedState)];
  }

  lemma {:induction false} RegisterKeepsLedger(c: Custody, key: Key, domain: string, a: Artifact)
    requires Filed(c)
    ensures var after := Register(c, key, domain, a).0;
            after.Some? && Filed(after.value) && (LedgerAgrees(c) ==> LedgerAgrees(after.value))
                && c.events <= after.value.events
  {
    var (staged, rec) := Stage(c, key, domain, a);
    StageKeepsInvariants(c, key, domain, a);
    MoveKeepsInvariants(staged, rec.id, Verified);
    MoveKeepsInvariants(MoveTo(staged, rec.id, Verified).value, rec.id, PromotedState);
  }

  lemma {:induction false} RegisterEvolves(c: Custody, key: Key, domain: string, a: Artifact)
    requires Filed(c)
    ensures var (after, rec) := Register(c, key, domain, a);
            && after.Some? && Evolves(c, after.value)
            && FindVerified(after.value, key).Some? && SameRecord(rec, after.value.rows[key])
  {
    RegisterInFull(c, key, domain, a);
    RegisterKeepsLedger(c, key, domain, a);
  }

  lemma {:induction false} TakeEvolves(x: Execution, step: RouteStep, p: Progress)
    requires Filed(p.custody)
    ensures Evolves(p.custody, StriderOf(x)(step, p).p.custody)
  {
    if !(x.resume && Cached(x.plan, x.parent, step, p).Some?) && !step.needsApproval {
      match x.run(step, p.view)
      case Succeeded(made) =>
        if made.Some? {
          RegisterEvolves(p.custody, KeyOf(x.plan, x.parent, step, p.view.hash, made.value.schema), step.domain,
              made.value);
        }
      case _ =>
    }
  }

  lemma {:induction false} RouteEvolves(x: Execution, c: Custody, i: nat, n: nat)
    requires i <= n <= |x.plan.steps| && Filed(c)
    ensures Filed(After(x, c, i).p.custody) && Evolves(After(x, c, i).p.custody, After(x, c, n).p.custody)
    decreases n
  {
    if n > 0 {
      RouteEvolves(x, c, if i < n then i else n - 1, n - 1);
      var before := After(x, c, n - 1);
      if before.On? {
        TakeEvolves(x, x.plan.steps[n - 1], before.p);
        if i < n { KeepsTransitive(After(x, c, i).p.custody, before.p.custody, After(x, c, n).p.custody); }
      }
    }
  }

  // ---- Resuming ----

  ghost predicate Records(c: Custody, key: Key, view: View) {
    FindVerified(c, key).Some? && c.rows[key].content == view.hash && Some(c.rows[key].id) == view.artifact
  }

  /** Step j went through and left a resumable record of what the chain goes on with. */
  ghost predicate LeftRecord(x: Execution, c: Custody, j: nat)
    requires j < |x.plan.steps|
  {
    var (before, after, step) := (After(x, c, j), After(x, c, j + 1), x.plan.steps[j]);
    before.On? && after.On?
    && Records(after.p.custody, KeyOf(x.plan, x.parent, step, before.p.view.hash, step.schema), after.p.view)
  }

  ghost predicate Resumes(x: Execution, step: RouteStep, q: Progress) {
    x.resume && Cached(x.plan, x.parent, step, q).Some?
  }

  lemma {:induction false} ResumedKeepsRecord(x: Execution, step: RouteStep, q: Progress)
    requires Filed(q.custody) && Resumes(x, step, q) && StriderOf(x)(step, q).On?
    ensures var after := StriderOf(x)(step, q).p;
            Records(after.custody, KeyOf(x.plan, x.parent, step, q.view.hash, step.schema), after.view)
  {
    var rec := Cached(x.plan, x.parent, step, q).value;
    assert StriderOf(x)(step, q) == FromCache(step, x.canRead, rec, q);
  }

  lemma {:induction false} RegisteredLeavesRecord(x: Execution, step: RouteStep, q: Progress, a: Artifact)
    requires Filed(q.custody) && !Resumes(x, step, q) && !step.needsApproval
    requires x.run(step, q.view) == Succeeded(Some(a)) && a.schema == step.schema
    ensures StriderOf(x)(step, q).On?
    ensures var after := StriderOf(x)(step, q).p;
            Records(after.custody, KeyOf(x.plan, x.parent, step, q.view.hash, step.schema), after.view)
  {
    RegisterEvolves(q.custody, KeyOf(x.plan, x.parent, step, q.view.hash, a.schema), step.domain, a);
  }

  /** A step leaves one if it was resumed itself, or registered an artifact of its declared schema version. */
  lemma {:induction false} RegisteringLeavesRecord(x: Execution, c: Custody, j: nat)
    requires j < |x.plan.steps| && Filed(c) && After(x, c, j).On?
    requires var (step, q) := (x.plan.steps[j], After(x, c, j).p);
             || (Resumes(x, step, q) && After(x, c, j + 1).On?)
             || (!Resumes(x, step, q) && !step.needsApproval && x.run(step, q.view).Succeeded?
                 && x.run(step, q.view).artifact.Some? && x.run(step, q.view).artifact.value.schema == step.schema)
    ensures LeftRecord(x, c, j)
  {
    var (step, q) := (x.plan.steps[j], After(x, c, j).p);
    RouteEvolves(x, c, 0, j);
    if Resumes(x, step, q) {
      ResumedKeepsRecord(x, step, q);
    } else {
      RegisteredLeavesRecord(x, step, q, x.run(step, q.view).artifact.value);
    }
  }

  ghost predicate AllLeftRecords(x: Execution, c: Custody, k: nat)
    requires k <= |x.plan.steps|
  {
    forall j {:trigger LeftRecord(x, c, j)} :: 0 <= j < k ==> LeftRecord(x, c, j)
  }

  /** Everything a resumed run has in common with the run it resumes after k steps. */
  ghost predicate ResumedTo(x: Execution, again: Execution, c: Custody, d: Custody, k: nat)
    requires again.plan == x.plan && k <= |x.plan.steps|
  {
    var (full, resumed) := (After(x, c, k), After(again, d, k));
    && resumed.On? && resumed.p.ran == []
    && resumed.p.cached == StepIds(x.plan.steps, k) && resumed.p.completed == StepIds(x.plan.steps, k)
    && resumed.p.view.artifact == full.p.view.artifact && resumed.p.view.hash == full.p.view.hash
    && resumed.p.custody == d
  }

  /** The payload file step j left can still be read back as what the step puts out. */
  ghost predicate Readable(x: Execution, again: Execution, c: Custody, d: Custody, j: nat)
    requires j < |x.plan.steps|
  {
    var id := After(x, c, j + 1).p.view.artifact;
    Loadable(x.plan.steps[j].output) ==>
      id.Some? && id.value in d.files && again.canRead(x.plan.steps[j].output, d.files[id.value])
  }

  ghost predicate AllReadable(x: Execution, again: Execution, c: Custody, d: Custody, k: nat)
    requires k <= |x.plan.steps|
  {
    forall j {:trigger Readable(x, again, c, d, j)} :: 0 <= j < k ==> Readable(x, again, c, d, j)
  }

  /**
   Resuming from any custody that kept those records runs none of the steps again, whatever the runners are now,
   exactly when every payload on the way can be read back; otherwise it raises.
   */
  lemma {:induction false} ResumeAgreesWithRun(x: Execution, again: Execution, c: Custody, d: Custody, k: nat)
    requires again.plan == x.plan && again.parent == x.parent && again.resume
    requires k <= |x.plan.steps| && Filed(c) && Filed(d)
    requires AllLeftRecords(x, c, k) && Keeps(After(x, c, k).p.custody, d)
    ensures ResumedTo(x, again, c, d, k) <==> AllReadable(x, again, c, d, k)
    ensures !AllReadable(x, again, c, d, k) ==> After(again, d, k).Stop? && After(again, d, k).status == Raised
  {
    if k > 0 {
      BeforeLastStep(x, c, d, k - 1);
      ResumeAgreesWithRun(x, again, c, d, k - 1);
      ReadableStep(x, again, c, d, k);
      if AllReadable(x, again, c, d, k - 1) {
        ResumeStep(again, x, c, d, k);
      } else {
        StopIsFinal(again, d, k - 1, k);
      }
    }
  }

  lemma {:induction false} ReadableStep(x: Execution, again: Execution, c: Custody, d: Custody, k: nat)
    requires 0 < k <= |x.plan.steps|
    ensures AllReadable(x, again, c, d, k) <==> AllReadable(x, again, c, d, k - 1) && Readable(x, again, c, d, k - 1)
  {
  }

  lemma {:induction false} BeforeLastStep(x: Execution, c: Custody, d: Custody, j: nat)
    requires j < |x.plan.steps| && Filed(c) && AllLeftRecords(x, c, j + 1) && Keeps(After(x, c, j + 1).p.custody, d)
    ensures AllLeftRecords(x, c, j) && LeftRecord(x, c, j) && Keeps(After(x, c, j).p.custody, d)
  {
    assert LeftRecord(x, c, j);
    KeptAcross(x, c, d, j);
  }

  lemma {:induction false} KeptAcross(x: Execution, c: Custody, d: Custody, j: nat)
    requires j < |x.plan.steps| && Filed(c) && Keeps(After(x, c, j + 1).p.custody, d)
    ensures Keeps(After(x, c, j).p.custody, d)
  {
    RouteEvolves(x, c, j, j + 1);
    KeepsTransitive(After(x, c, j).p.custody, After(x, c, j + 1).p.custody, d);
  }

  lemma {:induction false} ResumeStep(again: Execution, x: Execution, c: Custody, d: Custody, k: nat)
    requires again.plan == x.plan && again.parent == x.parent && again.resume
    requires 0 < k <= |x.plan.steps| && Filed(d) && LeftRecord(x, c, k - 1) && Keeps(After(x, c, k).p.custody, d)
    requires ResumedTo(x, again, c, d, k - 1)
    ensures if Readable(x, again, c, d, k - 1) then ResumedTo(x, again, c, d, k)
            else After(again, d, k).Stop? && After(again, d, k).status == Raised
  {
    ResumeOneStep(again, x.plan.steps[k - 1], After(again, d, k - 1).p, After(x, c, k).p);
  }

  /** One resumed step, given that the record the earlier run ended the step with is still there. */
  lemma {:induction false} ResumeOneStep(again: Execution, step: RouteStep, p: Progress, full: Progress)
    requires again.resume && Filed(p.custody) && Keeps(full.custody, p.custody)
    requires Records(full.custody, KeyOf(again.plan, again.parent, step, p.view.hash, step.schema), full.view)
    ensures full.view.artifact.Some? && full.view.artifact.value in p.custody.files
    ensures var s := StriderOf(again)(step, p);
            if Loadable(step.output) && !again.canRead(step.output, p.custody.files[full.view.artifact.value])
            then s.Stop? && s.status == Raised
            else
              && s.On? && s.p.ran == p.ran && s.p.cached == p.cached + [step.id]
              && s.p.completed == p.completed + [step.id] && s.p.view.artifact == full.view.artifact
              && s.p.view.hash == full.view.hash && s.p.custody == p.custody
  {
    var key := KeyOf(again.plan, again.parent, step, p.view.hash, step.schema);
    assert FindVerified(p.custody, key).Some? && SameRecord(full.custody.rows[key], p.custody.rows[key]);
  }

  /** In particular, resuming on the custody the whole run left. */
  lemma {:induction false} ResumeAfterRun(x: Execution, again: Execution, c: Custody, k: nat)
    requires again.plan == x.plan && again.parent == x.parent && again.resume
    requires k <= |x.plan.steps| && Filed(c) && AllLeftRecords(x, c, k)
    ensures var d := After(x, c, |x.plan.steps|).p.custody;
            ResumedTo(x, again, c, d, k) <==> AllReadable(x, again, c, d, k)
  {
    RouteEvolves(x, c, k, |x.plan.steps|);
    ResumeAgreesWithRun(x, again, c, After(x, c, |x.plan.steps|).p.custody, k);
  }

  /** A registered artifact of another schema version than the step declares is never found again under a fresh key. */
  lemma {:induction false} OtherSchemaIsRunAgain(
      plan: RoutePlan, parent: Parent, step: RouteStep, c: Custody, source: Digest, a: Artifact)
    requires Filed(c) && KeyOf(plan, parent, step, source, step.schema) !in c.rows
    ensures var (after, _) := Register(c, KeyOf(plan, parent, step, source, a.schema), step.domain, a);
            after.Some? && (FindVerified(after.value, KeyOf(plan, parent, step, source, step.schema)).Some? <==>
                a.schema == step.schema)
  {
    RegisterEvolves(c, KeyOf(plan, parent, step, source, a.schema), step.domain, a);
  }

  // ---- Which records a step resumes from ----

  /** The eight fields of a key, one by one: those of an execution at one step, with a source and a schema version. */
  predicate Describes(key: Key, x: Execution, step: RouteStep, source: Digest, schema: string) {
    && key.parentRun == x.parent.run && key.commit == x.parent.commit && key.planHash == x.plan.hash
    && key.step == step.id && key.producer == step.producer && key.policy == step.policy
    && key.source == source && key.schema == schema
  }

  /** A resumable record of exactly this run, plan, step, source, commit, producer, policy and schema version. */
  ghost predicate Resumable(c: Custody, key: Key, x: Execution, step: RouteStep, source: Digest) {
    && key in c.rows && Describes(key, x, step, source, step.schema)
    && (c.rows[key].state == Verified || c.rows[key].state == PromotedState)
  }

  /** A step is resumed exactly when there is such a record; otherwise its runner is asked, or its approval. */
  lemma {:induction false} ResumesExactly(x: Execution, step: RouteStep, p: Progress)
    requires Filed(p.custody)
    ensures Resumes(x, step, p) <==> x.resume && exists key :: Resumable(p.custody, key, x, step, p.view.hash)
    ensures var s := StriderOf(x)(step, p);
            && (s.p.cached != p.cached ==> Resumes(x, step, p) && s.p.ran == p.ran)
            && (!Resumes(x, step, p) && step.needsApproval ==> s == Stop(AwaitingApproval, step.id, p))
            && (!Resumes(x, step, p) && !step.needsApproval && !x.run(step, p.view).RunnerRaised? ==>
                  s.p.ran == p.ran + [step.id])
  {
    if x.resume && exists key :: Resumable(p.custody, key, x, step, p.view.hash) {
      var key :| Resumable(p.custody, key, x, step, p.view.hash);
      assert key == KeyOf(x.plan, x.parent, step, p.view.hash, step.schema);
    }
    if Resumes(x, step, p) {
      assert Resumable(p.custody, KeyOf(x.plan, x.parent, step, p.view.hash, step.schema), x, step, p.view.hash);
    }
  }

  /** What a resumed step goes on with is a record that carries all of these. */
  lemma {:induction false} ResumedRecordIsOwn(x: Execution, step: RouteStep, p: Progress)
    requires Filed(p.custody) && Resumes(x, step, p) && StriderOf(x)(step, p).On?
    ensures var after := StriderOf(x)(step, p).p;
            && after.view.artifact.Some?
            && var key := after.view.artifact.value.key;
               && Resumable(p.custody, key, x, step, p.view.hash)
               && after.view.hash == p.custody.rows[key].content && after.finalKind == Some(p.custody.rows[key].kind)
               && after.cached == p.cached + [step.id] && after.custody == p.custody
               && after.view.input == if Loadable(step.output) then Payload(p.custody.files[after.view.artifact.value])
                                      else p.view.input
  {
    ResumedKeepsRecord(x, step, p);
  }

  /** A key registered by some step of this execution, with the source it had then. */
  ghost predicate Registered(x: Execution, c: Custody, n: nat, key: Key)
    requires n <= |x.plan.steps|
  {
    exists j :: 0 <= j < n && After(x, c, j).On? &&
                Describes(key, x, x.plan.steps[j], After(x, c, j).p.view.hash, key.schema)
  }

  lemma {:induction false} StepRegisters(x: Execution, step: RouteStep, p: Progress, key: Key)
    requires Filed(p.custody) && key in StriderOf(x)(step, p).p.custody.rows && key !in p.custody.rows
    ensures Describes(key, x, step, p.view.hash, key.schema)
  {
    if !Resumes(x, step, p) && !step.needsApproval {
      match x.run(step, p.view)
      case Succeeded(made) =>
        if made.Some? {
          RegisterInFull(p.custody, KeyOf(x.plan, x.parent, step, p.view.hash, made.value.schema), step.domain,
                         made.value);
        }
      case _ =>
    }
  }

  /** Every record an execution adds is one of its own steps'. */
  lemma {:induction false} FreshKeysAreOwn(x: Execution, c: Custody, n: nat, key: Key)
    requires n <= |x.plan.steps| && Filed(c)
    requires key in After(x, c, n).p.custody.rows && key !in c.rows
    ensures Registered(x, c, n, key)
  {
    if n > 0 {
      var before := After(x, c, n - 1);
      RouteEvolves(x, c, n - 1, n - 1);
      if before.On? && key !in before.p.custody.rows {
        StepRegisters(x, x.plan.steps[n - 1], before.p, key);
      } else {
        FreshKeysAreOwn(x, c, n - 1, key);
      }
    }
  }

  /** The two executions agree on everything a key holds, at one step of each. */
  ghost predicate SameStep(x: Execution, c: Custody, again: Execution, step: RouteStep, source: Digest) {
    && again.parent == x.parent && again.plan.hash == x.plan.hash
    && exists j :: 0 <= j < |x.plan.steps| && After(x, c, j).On? && After(x, c, j).p.view.hash == source &&
                   x.plan.steps[j].id == step.id && x.plan.steps[j].producer == step.producer &&
                   x.plan.steps[j].policy == step.policy
  }

  /**
   A record freshly registered by one execution is resumed by another only for the same run, commit, plan, step,
   producer and policy over the same source: a difference in any of them runs the step again.
   */
  lemma {:induction false} FreshRecordsServeSameStepOnly(
      x: Execution, again: Execution, c: Custody, step: RouteStep, p: Progress)
    requires Filed(c) && Filed(p.custody)
    requires Resumes(again, step, p) && StriderOf(again)(step, p).On?
    ensures var made := StriderOf(again)(step, p).p.view.artifact;
            made.Some? && (made.value.key in After(x, c, |x.plan.steps|).p.custody.rows && made.value.key !in c.rows ==>
              SameStep(x, c, again, step, p.view.hash))
  {
    var n := |x.plan.steps|;
    ResumedRecordIsOwn(again, step, p);
    var key := StriderOf(again)(step, p).p.view.artifact.value.key;
    if key in After(x, c, n).p.custody.rows && key !in c.rows {
      FreshKeysAreOwn(x, c, n, key);
      var j :| 0 <= j < n && After(x, c, j).On? &&
               Describes(key, x, x.plan.steps[j], After(x, c, j).p.view.hash, key.schema);
    }
  }

  // ---- What runners are handed ----

  /** A step that was run hands its artifact on; under a new key that is filed, promoted and named by its hash. */
  lemma {:induction false} RunStepHandsOn(x: Execution, step: RouteStep, p: Progress)
    requires Filed(p.custody) && !Resumes(x, step, p) && StriderOf(x)(step, p).On?
    ensures !step.needsApproval && x.run(step, p.view).Succeeded?
    ensures var (made, after) := (x.run(step, p.view).artifact, StriderOf(x)(step, p).p);
            && after.completed == p.completed + [step.id] && after.cached == p.cached
            && if made.None? then after.view == p.view && after.custody == p.custody && after.finalKind == p.finalKind
               else
                 && after.view.input == Payload(made.value) && after.finalKind == Some(step.output)
                 && after.view.artifact.Some?
                 && var id := after.view.artifact.value;
                    && Describes(id.key, x, step, p.view.hash, made.value.schema)
                    && (id.key !in p.custody.rows ==>
                          && id.domain == step.domain && after.view.hash == Of(made.value)
                          && id.key in after.custody.rows
                          && after.custody.rows[id.key] ==
                             Record(id, made.value.kind, Of(made.value), PromotedState)
                          && id in after.custody.files && after.custody.files[id] == made.value)
  {
    var made := x.run(step, p.view).artifact;
    if made.Some? {
      var key := KeyOf(x.plan, x.parent, step, p.view.hash, made.value.schema);
      RegisterInFull(p.custody, key, step.domain, made.value);
    }
  }

  /** Why a step ends the execution, which then has changed nothing in custody. */
  lemma {:induction false} StopsExactly(x: Execution, step: RouteStep, p: Progress)
    requires Filed(p.custody)
    ensures var (s, asked) := (StriderOf(x)(step, p), !Resumes(x, step, p) && !step.needsApproval);
            && (s.Stop? ==> s.step == step.id && s.p.custody == p.custody && s.p.view == p.view)
            && (s.Stop? && s.status == AwaitingApproval <==> !Resumes(x, step, p) && step.needsApproval)
            && (s.Stop? && s.status == Escalated <==> asked && x.run(step, p.view).Aborted?)
            && (s.Stop? && s.status == Raised <==>
                  || (asked && x.run(step, p.view).RunnerRaised?)
                  || (Resumes(x, step, p) && Loadable(step.output) &&
                      !x.canRead(step.output, p.custody.files[Cached(x.plan, x.parent, step, p).value.id])))
            && (s.Stop? ==> s.status != Success)
  {
    if !Resumes(x, step, p) && !step.needsApproval && x.run(step, p.view).Succeeded? {
      var made := x.run(step, p.view).artifact;
      if made.Some? {
        RegisterInFull(p.custody, KeyOf(x.plan, x.parent, step, p.view.hash, made.value.schema), step.domain,
                       made.value);
      }
    }
  }

  // ---- Payloads ----

  /** Every payload file holds the content its record was hashed from. */
  ghost predicate Faithful(c: Custody) {
    forall k :: k in c.rows ==> c.rows[k].id in c.files && c.rows[k].content == Of(c.files[c.rows[k].id])
  }

  /** Registering keeps the files faithful exactly when it does not overwrite a record's file with other content. */
  lemma {:induction false} RegisterFaithfulExactly(c: Custody, key: Key, domain: string, a: Artifact)
    requires Filed(c) && Faithful(c)
    ensures var (after, _) := Register(c, key, domain, a);
            after.Some? && (Faithful(after.value) <==>
              (key in c.rows && c.rows[key].id.domain == domain ==> c.rows[key].content == Of(a)))
  {
    RegisterInFull(c, key, domain, a);
    var (after, id) := (Register(c, key, domain, a).0.value, Id(domain, key));
    if Faithful(after) && key in c.rows && c.rows[key].id.domain == domain {
      assert after.rows[key].content == Of(after.files[id]);
    }
  }

  /** Over faithful files a resumed step goes on with the very payload its hash names, if it can be read back. */
  lemma {:induction false} ResumedPayloadMatchesHash(x: Execution, step: RouteStep, p: Progress)
    requires x.resume && Faithful(p.custody) && Loadable(step.output) && Cached(x.plan, x.parent, step, p).Some?
    ensures var s := StriderOf(x)(step, p);
            var content := Cached(x.plan, x.parent, step, p).value.content;
            && content.Of? && (s.On? <==> x.canRead(step.output, content.artifact))
            && (s.On? ==> s.p.view.hash == content && s.p.view.input == Payload(content.artifact))
  {
  }

  datatype RouteResult = RouteResult(
    status: Status, completed: seq<string>, cached: seq<string>, ran: seq<string>, current: Option<string>,
    artifact: Option<Id>, finalKind: Option<string>)

  function ResultOf(s: Stride): RouteResult {
    match s
    case On(p) => RouteResult(Success, p.completed, p.cached, p.ran, None, p.view.artifact, p.finalKind)
    case Stop(status, step, p) => RouteResult(status, p.completed, p.cached, p.ran, Some(step), p.view.artifact,
        p.finalKind)
  }

  lemma {:induction false} StopIsFinal(x: Execution, c: Custody, n: nat, m: nat)
    requires n <= m <= |x.plan.steps| && After(x, c, n).Stop?
    ensures After(x, c, m) == After(x, c, n)
  {
    if n < m { StopIsFinal(x, c, n, m - 1); }
  }

  lemma {:induction false} OnlyFullRunsSucceed(x: Execution, c: Custody, n: nat)
    requires n <= |x.plan.steps|
    ensures After(x, c, n).Stop? ==> After(x, c, n).status != Success
  {
    if n > 0 { OnlyFullRunsSucceed(x, c, n - 1); }
  }

  lemma {:induction false} RouteOutcome(x: Execution, c: Custody)
    requires Filed(c)
    ensures var (s, n) := (After(x, c, |x.plan.steps|), |x.plan.steps|);
            && Evolves(c, s.p.custody)
            && (ResultOf(s).status == Success <==> s.On?)
            && (ResultOf(s).status == Success ==> ResultOf(s).completed == StepIds(x.plan.steps, n))
  {
    RouteEvolves(x, c, 0, |x.plan.steps|);
    CompletedIsPrefix(x, c, |x.plan.steps|);
    OnlyFullRunsSucceed(x, c, |x.plan.steps|);
  }

  class BoundedShadowRouter {
    const registry: ArtifactRegistry

    constructor (registry: ArtifactRegistry)
      ensures this.registry == registry
    {
      this.registry := registry;
    }

    method ExecuteRoute(
        plan: RoutePlan, parent: Parent, resume: bool, canRead: Reader, run: Runner) returns (r: RouteResult)
      requires Filed(registry.custody)
      modifies registry
      ensures var s := After(Execution(plan, parent, resume, canRead, run), old(registry.custody), |plan.steps|);
              r == ResultOf(s) && registry.custody == s.p.custody
      ensures var s := After(Execution(plan, parent, resume, canRead, run), old(registry.custody), |plan.steps|);
              && r.status == (if s.On? then Success else s.status)
              && r.current == (if s.On? then None else Some(s.step))
              && r.completed == s.p.completed && r.cached == s.p.cached && r.ran == s.p.ran
              && r.artifact == s.p.view.artifact && r.finalKind == s.p.finalKind
      ensures r.status == Success ==> r.completed == StepIds(plan.steps, |plan.steps|)
      ensures Evolves(old(registry.custody), registry.custody)
    {
      ghost var x, c := Execution(plan, parent, resume, canRead, run), registry.custody;
      RouteOutcome(x, c);
      var p := Start(registry.custody);
      for i := 0 to |plan.steps|
        invariant After(x, c, i) == On(p) && registry.custody == p.custody && Filed(p.custody)
      {
        var s := TakeStep(plan, parent, plan.steps[i], resume, canRead, run, p);
        assert After(x, c, i + 1) == s;
        if s.Stop? {
          StopIsFinal(x, c, i + 1, |plan.steps|);
          return ResultOf(s);
        }
        p := s.p;
      }
      r := ResultOf(On(p));
    }

    /** The body of the step loop. */
    method TakeStep(
        plan: RoutePlan, parent: Parent, step: RouteStep, resume: bool, canRead: Reader, run: Runner, p: Progress)
        returns (s: Stride)
      requires Filed(registry.custody) && p.custody == registry.custody
      modifies registry
      ensures s == Take(plan, parent, step, resume, canRead, run, p) && registry.custody == s.p.custody
              && Filed(registry.custody)
    {
      TakeEvolves(Execution(plan, parent, resume, canRead, run), step, p);
      if resume {
        var found := registry.FindVerifiedArtifact(KeyOf(plan, parent, step, p.view.hash, step.schema));
        if found.Some? { return FromCache(step, canRead, found.value, p); }
      }
      if step.needsApproval { return Stop(AwaitingApproval, step.id, p); }
      match run(step, p.view)
      case RunnerRaised => return Stop(Raised, step.id, p);
      case Aborted => return Stop(Escalated, step.id, p.(ran := p.ran + [step.id]));
      case Succeeded(made) =>
        var q := p.(completed := p.completed + [step.id], ran := p.ran + [step.id]);
        if made.None? { return On(q); }
        var a := made.value;
        RegisterEvolves(p.custody, KeyOf(plan, parent, step, p.view.hash, a.schema), step.domain, a);
        var rec := registry.StageArtifact(KeyOf(plan, parent, step, p.view.hash, a.schema), step.domain, a);
        var verified := registry.TransitionState(rec.id, Verified);
        var promoted := registry.TransitionState(rec.id, PromotedState);
        return On(q.(custody := registry.custody, view := View(Payload(a), Some(rec.id), rec.content),
            finalKind := Some(step.output)));
    }
  }
}
