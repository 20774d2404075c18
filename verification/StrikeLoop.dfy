/** The governor's strike loop: attempts, strikes, the failure ledger and the anti-oscillation check. */
module StrikeLoop {
  import opened Common

  datatype Phase = Execution | Oscillation | Verification

  datatype Entry = Entry(attempt: nat, strike: nat, phase: Phase, error: string)

  /** What the worker is told about its last failure. */
  datatype Feedback = NoFeedback | Told(entry: Entry)

  datatype Verdict = Pass | Fail(error: string) | VerifierRaises

  /** What the worker does in one attempt; the candidate is known by its hash, a missing one by a fixed text. */
  datatype Turn = Turn(
    tamperedBefore: bool, staged: Result<string, string>, tamperedAfter: bool,
    verdict: Verdict, commit: Result<string, string>)

  type Worker = (nat, Feedback) -> Turn

  const OSCILLATION_ERROR: string :=
    "Anti-Oscillation Violation: Candidate generated on retry is mathematically identical to prior failed candidate."

  datatype StepResult =
    | Success(attempts: nat, strikes: nat, hash: string, ledger: seq<Entry>, receipt: string)
    | Aborted(attempts: nat, strikes: nat, candidate: Option<string>, ledger: seq<Entry>, last: Feedback)
    | Raised

  /** After k failed attempts the attempt and strike counters are both k. */
  datatype State = State(ledger: seq<Entry>, history: seq<string>, last: Option<string>)

  /** One run's settings: the worker, the injected failure and the error compaction. */
  datatype Setting = Setting(worker: Worker, forced: Option<(nat, string)>, compact: string -> string)

  datatype Stride = Strike(s: State) | Done(r: StepResult, s: State, committed: bool)

  function FeedbackOf(s: State): Feedback {
    if s.ledger == [] then NoFeedback else Told(s.ledger[|s.ledger| - 1])
  }

  function Struck(s: State, phase: Phase, error: string): State {
    s.(ledger := s.ledger + [Entry(|s.ledger| + 1, |s.ledger| + 1, phase, error)])
  }

  predicate Repeats(s: State, hash: string) {
    s.ledger != [] && s.history != [] && s.history[|s.history| - 1] == hash
  }

  function VerdictAt(x: Setting, attempt: nat, turn: Turn): Verdict {
    if x.forced.Some? && x.forced.value.0 == attempt then Fail(x.forced.value.1) else turn.verdict
  }

  /** One attempt: it ends the run or costs exactly one strike. */
  function Attempt(x: Setting, s: State): Stride {
    var attempt := |s.ledger| + 1;
    var turn := x.worker(attempt, FeedbackOf(s));
    if turn.tamperedBefore then Done(Raised, s, false)
    else match turn.staged
      case Err(error) => Strike(Struck(s, Execution, x.compact(error)))
      case Ok(hash) =>
        var seen := s.(last := Some(hash));
        if Repeats(s, hash) then Strike(Struck(seen, Oscillation, OSCILLATION_ERROR))
        else
          var tried := seen.(history := s.history + [hash]);
          if turn.tamperedAfter then Done(Raised, tried, false)
          else match VerdictAt(x, attempt, turn)
            case VerifierRaises => Done(Raised, tried, false)
            case Fail(error) => Strike(Struck(tried, Verification, x.compact(error)))
            case Pass =>
              match turn.commit
              case Err(_) => Done(Raised, tried, true)
              case Ok(receipt) => Done(Success(attempt, |s.ledger|, hash, s.ledger, receipt), tried, true)
  }

  function Governed(x: Setting, s: State, ceiling: nat): Stride
    requires |s.ledger| <= ceiling
    decreases ceiling - |s.ledger|
  {
    if |s.ledger| == ceiling then Done(Aborted(|s.ledger|, ceiling, s.last, s.ledger, FeedbackOf(s)), s, false)
    else match Attempt(x, s)
      case Strike(t) => Governed(x, t, ceiling)
      case Done(r, t, committed) => Done(r, t, committed)
  }

  const START: State := State([], [], None)

  /** Entry k was written by attempt k + 1 as strike k + 1. */
  ghost predicate Numbered(ledger: seq<Entry>) {
    forall k :: 0 <= k < |ledger| ==> ledger[k].attempt == ledger[k].strike == k + 1
  }

  ghost predicate NoAdjacentRepeat(history: seq<string>) {
    forall i, j :: 0 <= i && j == i + 1 && j < |history| ==> history[i] != history[j]
  }

  /** A verified candidate is behind every strike but those of failed executions. */
  ghost predicate Consistent(s: State) {
    Numbered(s.ledger) && NoAdjacentRepeat(s.history) && |s.history| <= |s.ledger|
  }

  lemma {:induction false} AttemptKeeps(x: Setting, s: State)
    requires Consistent(s)
    ensures var a := Attempt(x, s);
            if a.Strike? then Consistent(a.s) && |a.s.ledger| == |s.ledger| + 1 && a.s.ledger[..|s.ledger|] == s.ledger
            else NoAdjacentRepeat(a.s.history) && (a.committed <==> a.r.Success? || (a.r.Raised? && a.committed))
  {
  }

  /** What every ending of a run promises. */
  ghost predicate Sound(a: Stride, ceiling: nat) {
    && a.Done? && NoAdjacentRepeat(a.s.history)
    && match a.r
       case Success(attempts, strikes, hash, ledger, receipt) =>
         attempts == strikes + 1 && |ledger| == strikes < ceiling && Numbered(ledger) && a.committed
         && a.s.history != [] && a.s.history[|a.s.history| - 1] == hash
       case Aborted(attempts, strikes, hash, ledger, last) =>
         attempts == strikes == |ledger| == ceiling && Numbered(ledger) && !a.committed
         && (ceiling > 0 ==> last == Told(ledger[ceiling - 1]))
       case Raised => true
  }

  /** Every run ends soundly within the ceiling. */
  lemma {:induction false} GovernedIsSound(x: Setting, s: State, ceiling: nat)
    requires Consistent(s) && |s.ledger| <= ceiling
    ensures Sound(Governed(x, s, ceiling), ceiling)
    decreases ceiling - |s.ledger|
  {
    if |s.ledger| < ceiling {
      AttemptKeeps(x, s);
      var a := Attempt(x, s);
      if a.Strike? { GovernedIsSound(x, a.s, ceiling); }
    }
  }

  /** A worker that hands in the same failing candidate every time has it verified once and burns the rest as
      oscillations. */
  lemma {:induction false} StubbornWorkerIsVerifiedOnce(x: Setting, hash: string, s: State, ceiling: nat)
    requires forall k, f :: var t := x.worker(k, f);
               !t.tamperedBefore && !t.tamperedAfter && t.staged == Ok(hash) && t.verdict.Fail?
    requires |s.ledger| <= ceiling
    requires s == START || (s.history == [hash] && s.ledger != [] && OneVerification(s.ledger))
    ensures ceiling > 0 ==>
              var a := Governed(x, s, ceiling);
              a.Done? && a.r.Aborted? && a.s.history == [hash] && OneVerification(a.r.ledger)
    decreases ceiling - |s.ledger|
  {
    if |s.ledger| < ceiling {
      var a := Attempt(x, s);
      var t := x.worker(|s.ledger| + 1, FeedbackOf(s));
      assert t.staged == Ok(hash);
      assert a.Strike? && a.s.history == [hash] && OneVerification(a.s.ledger);
      StubbornWorkerIsVerifiedOnce(x, hash, a.s, ceiling);
    }
  }

  predicate OneVerification(ledger: seq<Entry>) {
    forall k :: 0 <= k < |ledger| ==> ledger[k].phase == if k == 0 then Verification else Oscillation
  }

  /**
   Which repeats are caught: a candidate verified before reaches the verifier again exactly when another one has
   been verified since.
   */
  lemma {:induction false} ReverifiedExactly(x: Setting, s: State, hash: string, i: nat)
    requires Consistent(s) && i < |s.history| && s.history[i] == hash
    requires forall j :: i < j < |s.history| ==> s.history[j] != hash
    requires var t := x.worker(|s.ledger| + 1, FeedbackOf(s)); !t.tamperedBefore && t.staged == Ok(hash)
    ensures Attempt(x, s).s.history == s.history + [hash] <==> i + 1 < |s.history|
    ensures Attempt(x, s).s.history == s.history <==> i + 1 == |s.history|
  {
    assert |s.history + [hash]| == |s.history| + 1;
  }

  /** A worker that stages these candidates in turn, all failing, and then nothing any more. */
  function Replay(history: seq<string>): Setting {
    Setting((k: nat, f: Feedback) =>
              Turn(false, if 1 <= k <= |history| then Ok(history[k - 1]) else Err(""), false, Fail(""), Err("")),
            None, error => error)
  }

  /** A state of the replay after as many attempts as there are ledger entries. */
  ghost predicate Replayed(s: State, history: seq<string>) {
    s.history == if |s.ledger| <= |history| then history[..|s.ledger|] else history
  }

  lemma {:induction false} ReplayStep(history: seq<string>, s: State)
    requires NoAdjacentRepeat(history) && Replayed(s, history)
    ensures var a := Attempt(Replay(history), s);
            a.Strike? && |a.s.ledger| == |s.ledger| + 1 && Replayed(a.s, history)
  {
    var n := |s.ledger|;
    var turn := Replay(history).worker(n + 1, FeedbackOf(s));
    if n < |history| {
      assert turn.staged == Ok(history[n]);
      assert n > 0 ==> s.history[n - 1] == history[n - 1] != history[n];
      assert history[..n + 1] == history[..n] + [history[n]];
    }
  }

  lemma {:induction false} ReplayRuns(history: seq<string>, s: State, ceiling: nat)
    requires NoAdjacentRepeat(history) && Replayed(s, history) && |s.ledger| <= ceiling && |history| <= ceiling
    ensures var a := Governed(Replay(history), s, ceiling); a.Done? && a.r.Aborted? && a.s.history == history
    decreases ceiling - |s.ledger|
  {
    if |s.ledger| < ceiling {
      ReplayStep(history, s);
      ReplayRuns(history, Attempt(Replay(history), s).s, ceiling);
    } else {
      assert history[..|history|] == history;
    }
  }

  lemma {:induction false} HistoryWithinCeiling(x: Setting, s: State, ceiling: nat)
    requires Consistent(s) && |s.ledger| <= ceiling
    ensures |Governed(x, s, ceiling).s.history| <= ceiling
    decreases ceiling - |s.ledger|
  {
    if |s.ledger| < ceiling {
      AttemptKeeps(x, s);
      var a := Attempt(x, s);
      if a.Strike? { HistoryWithinCeiling(x, a.s, ceiling); }
    }
  }

  ghost predicate AbortsWith(x: Setting, ceiling: nat, history: seq<string>) {
    var a := Governed(x, START, ceiling);
    a.Done? && a.r.Aborted? && a.s.history == history
  }

  /**
   The candidates an aborted run may have had verified are exactly the sequences within the ceiling in which no
   candidate directly follows itself: the check looks one verified candidate back and no further.
   */
  lemma {:induction false} HistoriesExactly(history: seq<string>, ceiling: nat)
    ensures (exists x :: AbortsWith(x, ceiling, history)) <==> NoAdjacentRepeat(history) && |history| <= ceiling
  {
    if x :| AbortsWith(x, ceiling, history) {
      GovernedIsSound(x, START, ceiling);
      HistoryWithinCeiling(x, START, ceiling);
    }
    if NoAdjacentRepeat(history) && |history| <= ceiling {
      ReplayRuns(history, START, ceiling);
      assert AbortsWith(Replay(history), ceiling, history);
    }
  }

  // ---- The course of a run, attempt by attempt ----

  /** What the worker does in the next attempt, having been told of its last failure. */
  function NextTurn(x: Setting, s: State): Turn {
    x.worker(|s.ledger| + 1, if |s.ledger| == 0 then NoFeedback else Told(s.ledger[|s.ledger| - 1]))
  }

  /** The candidate this attempt hands to the verifier: staged, untampered so far, and not the one verified last. */
  predicate Tries(x: Setting, s: State, hash: string) {
    var turn := NextTurn(x, s);
    && !turn.tamperedBefore && turn.staged == Ok(hash)
    && (|s.history| > 0 && |s.ledger| > 0 ==> s.history[|s.history| - 1] != hash)
  }

  /** The verdict on it; an injected failure overrides the verifier in its attempt. */
  predicate Judged(x: Setting, s: State, v: Verdict) {
    if x.forced.Some? && x.forced.value.0 == |s.ledger| + 1 then v == Fail(x.forced.value.1)
    else v == NextTurn(x, s).verdict
  }

  predicate Appends(s: State, t: State, phase: Phase, error: string) {
    var k := |s.ledger| + 1;
    t.ledger == s.ledger + [Entry(k, k, phase, error)]
  }

  /** This attempt costs a strike and leads from s to t: staging failed, or it repeated itself, or it was refused. */
  predicate Strikes(x: Setting, s: State, t: State) {
    var turn := NextTurn(x, s);
    !turn.tamperedBefore &&
    match turn.staged
    case Err(error) => Appends(s, t, Execution, x.compact(error)) && t.history == s.history && t.last == s.last
    case Ok(hash) =>
      && t.last == Some(hash)
      && if Tries(x, s, hash) then
           && !turn.tamperedAfter && t.history == s.history + [hash] && |t.ledger| == |s.ledger| + 1
           && Judged(x, s, Fail(LastFailure(x, s))) && Appends(s, t, Verification, x.compact(LastFailure(x, s)))
         else Appends(s, t, Oscillation, OSCILLATION_ERROR) && t.history == s.history
  }

  /** The text of the failure in this attempt, if there is one. */
  function LastFailure(x: Setting, s: State): string {
    if x.forced.Some? && x.forced.value.0 == |s.ledger| + 1 then x.forced.value.1
    else match NextTurn(x, s).verdict case Fail(error) => error case _ => ""
  }

  /** The candidate this attempt tries passes, so the commit is called. */
  predicate Passes(x: Setting, s: State, hash: string) {
    Tries(x, s, hash) && !NextTurn(x, s).tamperedAfter && Judged(x, s, Pass)
  }

  /** This attempt raises: tampering before or after, a raising verifier, or a raising commit. */
  predicate Raises(x: Setting, s: State) {
    var turn := NextTurn(x, s);
    turn.tamperedBefore ||
    (turn.staged.Ok? && Tries(x, s, turn.staged.value) &&
     (turn.tamperedAfter || Judged(x, s, VerifierRaises) || (Judged(x, s, Pass) && turn.commit.Err?)))
  }

  /** The candidates handed to the verifier up to and including this attempt. */
  function Handed(x: Setting, s: State): seq<string> {
    var staged := NextTurn(x, s).staged;
    if staged.Ok? && Tries(x, s, staged.value) then s.history + [staged.value] else s.history
  }

  /** This attempt ends the run. */
  predicate Ends(x: Setting, s: State, r: StepResult, history: seq<string>, commits: nat) {
    var turn := NextTurn(x, s);
    && history == Handed(x, s)
    && (commits == 1 <==> turn.staged.Ok? && Passes(x, s, turn.staged.value)) && commits <= 1
    && match r
       case Success(attempts, strikes, hash, ledger, receipt) =>
         && Passes(x, s, hash) && turn.commit == Ok(receipt)
         && attempts == strikes + 1 && strikes == |s.ledger| && ledger == s.ledger
       case Raised => Raises(x, s)
       case Aborted(_, _, _, _, _) => false
  }

  /** The states of a run: strikes until an attempt ends it or the ceiling is reached. */
  ghost predicate Course(
      x: Setting, states: seq<State>, ceiling: nat, r: StepResult, history: seq<string>, commits: nat)
  {
    && 0 < |states| <= ceiling + 1 && states[0] == State([], [], None)
    && (forall k {:trigger states[k]} :: 0 <= k < |states| ==> |states[k].ledger| == k)
    && (forall k :: 0 <= k < |states| - 1 ==> Strikes(x, states[k], states[k + 1]))
    && var s := states[|states| - 1];
       if |states| == ceiling + 1 then
         && history == s.history && commits == 0
         && r == Aborted(ceiling, ceiling, s.last, s.ledger,
                         if ceiling == 0 then NoFeedback else Told(s.ledger[ceiling - 1]))
       else Ends(x, s, r, history, commits)
  }

  lemma {:induction false} AttemptTakesItsCourse(x: Setting, s: State)
    ensures match Attempt(x, s)
            case Strike(t) => Strikes(x, s, t)
            case Done(r, t, committed) => Ends(x, s, r, t.history, if committed then 1 else 0)
  {
  }

  lemma {:induction false} GovernedTakesItsCourse(
      x: Setting, states: seq<State>, ceiling: nat) returns (all: seq<State>)
    requires 0 < |states| <= ceiling + 1 && states[0] == State([], [], None)
    requires forall k {:trigger states[k]} :: 0 <= k < |states| ==> |states[k].ledger| == k
    requires forall k :: 0 <= k < |states| - 1 ==> Strikes(x, states[k], states[k + 1])
    ensures var a := Governed(x, states[|states| - 1], ceiling);
            a.Done? && Course(x, all, ceiling, a.r, a.s.history, if a.committed then 1 else 0)
    decreases ceiling + 1 - |states|
  {
    var n := |states|;
    var s := states[n - 1];
    all := states;
    if n <= ceiling {
      AttemptTakesItsCourse(x, s);
      var a := Attempt(x, s);
      if a.Strike? {
        var more := states + [a.s];
        forall k | 0 <= k < n ensures Strikes(x, more[k], more[k + 1]) {
          assert k < n - 1 ==> Strikes(x, states[k], states[k + 1]);
        }
        all := GovernedTakesItsCourse(x, more, ceiling);
      }
    }
  }

  class StepGovernor {
    const maxStrikes: nat

    constructor (maxStrikes: nat)
      ensures this.maxStrikes == maxStrikes
    {
      this.maxStrikes := maxStrikes;
    }

    /** `history` holds the candidates handed to the verifier, `commits` counts the calls of the commit. */
    method RunStep(x: Setting) returns (r: StepResult, history: seq<string>, commits: nat)
      ensures var a := Governed(x, START, maxStrikes);
              a.Done? && r == a.r && history == a.s.history && commits == if a.committed then 1 else 0
      ensures NoAdjacentRepeat(history)
      ensures r.Success? ==> commits == 1 && r.attempts == r.strikes + 1 && |r.ledger| == r.strikes < maxStrikes
      ensures r.Aborted? ==> commits == 0 && r.attempts == r.strikes == |r.ledger| == maxStrikes
      ensures exists states :: Course(x, states, maxStrikes, r, history, commits)
    {
      GovernedIsSound(x, START, maxStrikes);
      ghost var states := GovernedTakesItsCourse(x, [START], maxStrikes);
      var s := START;
      var attempt, strike := 0, 0;
      commits := 0;
      while strike < maxStrikes
        invariant attempt == strike == |s.ledger| <= maxStrikes && commits == 0
        invariant Governed(x, START, maxStrikes) == Governed(x, s, maxStrikes)
        decreases maxStrikes - strike
      {
        attempt := attempt + 1;
        var outcome := RunAttempt(x, s, attempt, strike);
        match outcome
        case Done(result, final, committed) =>
          if committed { commits := commits + 1; }
          return result, final.history, commits;
        case Strike(next) =>
          strike := strike + 1;
          s := next;
      }
      r, history := Aborted(attempt, maxStrikes, s.last, s.ledger, FeedbackOf(s)), s.history;
    }

    /** The body of the loop. */
    method RunAttempt(x: Setting, s: State, attempt: nat, strike: nat) returns (a: Stride)
      requires attempt == strike + 1 && strike == |s.ledger|
      ensures a == Attempt(x, s)
    {
      var turn := x.worker(attempt, FeedbackOf(s));
      if turn.tamperedBefore { return Done(Raised, s, false); }
      if turn.staged.Err? {
        return Strike(s.(ledger := s.ledger + [Entry(attempt, strike + 1, Execution, x.compact(turn.staged.error))]));
      }
      var hash := turn.staged.value;
      var history := s.history;
      if attempt > 1 && |history| > 0 {
        if hash == history[|history| - 1] && strike > 0 {
          return Strike(State(s.ledger + [Entry(attempt, strike + 1, Oscillation, OSCILLATION_ERROR)], history,
              Some(hash)));
        }
      }
      history := history + [hash];
      if turn.tamperedAfter { return Done(Raised, State(s.ledger, history, Some(hash)), false); }
      var verdict := if x.forced.Some? && x.forced.value.0 == attempt then Fail(x.forced.value.1) else turn.verdict;
      match verdict
      case VerifierRaises => return Done(Raised, State(s.ledger, history, Some(hash)), false);
      case Fail(error) =>
        return Strike(State(s.ledger + [Entry(attempt, strike + 1, Verification, x.compact(error))], history,
            Some(hash)));
      case Pass =>
        match turn.commit
        case Err(_) => return Done(Raised, State(s.ledger, history, Some(hash)), true);
        case Ok(receipt) =>
          return Done(Success(attempt, strike, hash, s.ledger, receipt), State(s.ledger, history, Some(hash)), true);
    }
  }
}
