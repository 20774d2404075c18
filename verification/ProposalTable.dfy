/**
 The proposal states, the legal-transition table, and the proposals table as a value with its
 one compare-and-swap update.
 */
module ProposalTable {
  import opened Commits

  datatype State =
    | CandidateSealed
    | Verifying
    | Verified
    | Rejected
    | Blocked
    | PromotionPending
    | Promoted
    | PostPromotionVerified

  function StateName(s: State): string {
    match s
    case CandidateSealed => "CANDIDATE_SEALED"
    case Verifying => "VERIFYING"
    case Verified => "VERIFIED"
    case Rejected => "REJECTED"
    case Blocked => "BLOCKED"
    case PromotionPending => "PROMOTION_PENDING"
    case Promoted => "PROMOTED"
    case PostPromotionVerified => "POST_PROMOTION_VERIFIED"
  }

  predicate Legal(from: State, to: State) {
    match from
    case CandidateSealed => to == Verifying || to == Verified || to == Rejected
    case Verifying => to == Verified || to == Rejected || to == Blocked
    case Verified => to == PromotionPending || to == Verifying
    case Rejected => to == Verifying || to == CandidateSealed
    case Blocked => to == Verifying || to == CandidateSealed
    case PromotionPending => to == Promoted || to == PostPromotionVerified || to == Verified || to == Rejected
    case Promoted => to == PostPromotionVerified || to == Rejected
    case PostPromotionVerified => false
  }

  /** States that the public database interface refuses to write. */
  predicate Privileged(s: State) {
    s.Verified? || s.PromotionPending? || s.Promoted? || s.PostPromotionVerified?
  }

  /** States that promise the candidate is on the target branch. */
  predicate OnBranchState(s: State) {
    s.Promoted? || s.PostPromotionVerified?
  }

  type Task = string

  /** A sealed manifest row: only `state` ever changes. */
  datatype Row = Row(base: Commit, cand: Commit, state: State)

  type Table = map<Task, Row>

  predicate CasApplies(t: Table, task: Task, from: State, to: State) {
    Legal(from, to) && task in t && t[task].state == from
  }

  /** UPDATE proposals SET state = to WHERE task_id = task AND state = from, guarded by Legal. */
  function Cas(t: Table, task: Task, from: State, to: State): (t': Table)
    ensures t'.Keys == t.Keys
    ensures forall k :: k in t ==> t'[k].base == t[k].base && t'[k].cand == t[k].cand
    ensures forall k :: k in t && t'[k].state != t[k].state ==> Legal(t[k].state, t'[k].state)
    ensures t' != t ==> task in t && t[task].state == from && t'[task].state == to
  {
    if CasApplies(t, task, from, to) then t[task := t[task].(state := to)] else t
  }
}
