/**
 KernelDatabase: the proposals and verified_receipts tables, changed one transaction at a time.
 */
module KernelStore {
  import opened Common
  import opened Commits
  import opened ProposalTable

  /** A verified_receipts row; its receipt_id is its position plus one. */
  datatype Receipt = Receipt(
    task: Task, cand: Commit, tree: string, spec: string, tests: string, trace: string, status: State)

  datatype DbError = AlreadySealed | IllegalTransition | PrivilegedMutationProhibited | NoSuchProposal

  class KernelDatabase {
    var proposals: Table
    var receipts: seq<Receipt>
    const internalToken: string

    constructor (token: string)
      ensures proposals == map[] && receipts == [] && internalToken == token
    {
      proposals, receipts, internalToken := map[], [], token;
    }

    /** Sealing is write-once: an existing row is never replaced. */
    method RecordProposal(task: Task, row: Row) returns (r: Result<(), DbError>)
      modifies this
      ensures receipts == old(receipts)
      ensures r == if task in old(proposals) then Err(AlreadySealed) else Ok(())
      ensures proposals == if task in old(proposals) then old(proposals) else old(proposals)[task := row]
    {
      if task in proposals { return Err(AlreadySealed); }
      proposals := proposals[task := row];
      r := Ok(());
    }

    method RawTransition(task: Task, from: State, to: State) returns (r: Result<(), DbError>)
      modifies this
      ensures receipts == old(receipts)
      ensures proposals == Cas(old(proposals), task, from, to)
      ensures r == if CasApplies(old(proposals), task, from, to) then Ok(()) else Err(IllegalTransition)
    {
      if !Legal(from, to) { return Err(IllegalTransition); }
      if task !in proposals || proposals[task].state != from { return Err(IllegalTransition); }
      proposals := proposals[task := proposals[task].(state := to)];
      r := Ok(());
    }

    method ExecutePrivilegedTransition(token: string, task: Task, from: State, to: State)
      returns (r: Result<(), DbError>)
      modifies this
      ensures receipts == old(receipts)
      ensures token != internalToken ==>
        r == Err(PrivilegedMutationProhibited) && proposals == old(proposals)
      ensures token == internalToken ==>
        && proposals == Cas(old(proposals), task, from, to)
        && r == if CasApplies(old(proposals), task, from, to) then Ok(()) else Err(IllegalTransition)
    {
      if token != internalToken { return Err(PrivilegedMutationProhibited); }
      r := RawTransition(task, from, to);
    }

    /** The public interface: whatever the arguments, no row enters a privileged state. */
    method TransitionProposalState(task: Task, from: State, to: State) returns (r: Result<(), DbError>)
      modifies this
      ensures receipts == old(receipts)
      ensures proposals == if Privileged(to) then old(proposals) else Cas(old(proposals), task, from, to)
      ensures r.Ok? <==> !Privileged(to) && CasApplies(old(proposals), task, from, to)
      ensures forall k :: k in proposals && proposals[k] != old(proposals)[k] ==> !Privileged(proposals[k].state)
    {
      if Privileged(to) { return Err(PrivilegedMutationProhibited); }
      r := RawTransition(task, from, to);
    }

    method UpdateState(task: Task, to: State) returns (r: Result<(), DbError>)
      modifies this
      ensures receipts == old(receipts)
      ensures task !in old(proposals) ==> r == Err(NoSuchProposal) && proposals == old(proposals)
      ensures task in old(proposals) ==>
        && (r.Ok? <==> !Privileged(to) && Legal(old(proposals)[task].state, to))
        && proposals == if r.Ok? then old(proposals)[task := old(proposals)[task].(state := to)] else old(proposals)
    {
      if task !in proposals { return Err(NoSuchProposal); }
      r := TransitionProposalState(task, proposals[task].state, to);
    }

    /** The receipt's task must have a proposal row (foreign key); the new id is the last position. */
    method RecordVerifiedReceipt(receipt: Receipt) returns (r: Result<nat, DbError>)
      modifies this
      ensures proposals == old(proposals)
      ensures receipt.task !in proposals ==> r == Err(NoSuchProposal) && receipts == old(receipts)
      ensures receipt.task in proposals ==> receipts == old(receipts) + [receipt] && r == Ok(|receipts|)
    {
      if receipt.task !in proposals { return Err(NoSuchProposal); }
      receipts := receipts + [receipt];
      r := Ok(|receipts|);
    }

    method GetPendingPromotions() returns (pending: map<Task, Commit>)
      ensures forall k :: k in pending <==> k in proposals && proposals[k].state == PromotionPending
      ensures forall k :: k in pending ==> pending[k] == proposals[k].cand
    {
      pending := map k | k in proposals && proposals[k].state == PromotionPending :: proposals[k].cand;
    }
  }
}
