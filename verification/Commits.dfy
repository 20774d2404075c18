/**
 Git commits as content-addressed values: a commit determines its parents, so the commit
 graph is an inductive datatype and reachability is structural recursion. The target branch
 is one movable head that `git merge --ff-only` advances.
 */
module Commits {
  import opened Common

  datatype Commit = Commit(sha: string, parents: seq<Commit>)

  /** `git merge-base --is-ancestor a b`. */
  predicate IsAncestor(a: Commit, b: Commit)
    decreases b
  {
    a == b || exists i :: 0 <= i < |b.parents| && IsAncestor(a, b.parents[i])
  }

  /** `git merge --ff-only cand` on a branch at `head`: the new head, or None when it refuses. */
  function MergeFastForward(head: Commit, cand: Commit): Option<Commit> {
    if IsAncestor(cand, head) then Some(head)
    else if IsAncestor(head, cand) then Some(cand)
    else None
  }

  lemma {:induction false} AncestorTransitive(a: Commit, b: Commit, c: Commit)
    requires IsAncestor(a, b) && IsAncestor(b, c)
    ensures IsAncestor(a, c)
    decreases c
  {
    if b != c {
      var i :| 0 <= i < |c.parents| && IsAncestor(b, c.parents[i]);
      AncestorTransitive(a, b, c.parents[i]);
    }
  }

  /** The number of commits in the unfolded history. */
  ghost function Weight(c: Commit): nat
    decreases c, 0
  {
    1 + TotalWeight(c, |c.parents|)
  }

  ghost function TotalWeight(c: Commit, n: nat): nat
    requires n <= |c.parents|
    decreases c, 0, n
  {
    if n == 0 then 0 else TotalWeight(c, n - 1) + Weight(c.parents[n - 1])
  }

  lemma {:induction false} ParentLighter(c: Commit, i: nat, n: nat)
    requires i < n <= |c.parents|
    ensures Weight(c.parents[i]) <= TotalWeight(c, n)
  {
    if i < n - 1 { ParentLighter(c, i, n - 1); }
  }

  lemma {:induction false} AncestorLighter(a: Commit, b: Commit)
    requires IsAncestor(a, b)
    ensures a == b || Weight(a) < Weight(b)
    decreases b
  {
    if a != b {
      var i :| 0 <= i < |b.parents| && IsAncestor(a, b.parents[i]);
      AncestorLighter(a, b.parents[i]);
      ParentLighter(b, i, |b.parents|);
    }
  }

  /** With reflexivity by definition and transitivity above, ancestry is a partial order. */
  lemma {:induction false} AncestorAntisymmetric(a: Commit, b: Commit)
    requires IsAncestor(a, b) && IsAncestor(b, a)
    ensures a == b
  {
    AncestorLighter(a, b);
    AncestorLighter(b, a);
  }

  /**
   A fast-forward merge keeps everything that was on the branch, puts the candidate on it,
   refuses only unrelated histories, and adds nothing beyond the candidate's own history.
   */
  lemma {:induction false} MergeKeepsHistory(head: Commit, cand: Commit, c: Commit)
    ensures MergeFastForward(head, cand).None? <==> !IsAncestor(cand, head) && !IsAncestor(head, cand)
    ensures MergeFastForward(head, cand).Some? ==>
      var head' := MergeFastForward(head, cand).value;
      && IsAncestor(cand, head')
      && (IsAncestor(c, head') <==> IsAncestor(c, head) || IsAncestor(c, cand))
  {
    if IsAncestor(c, head) && IsAncestor(head, cand) { AncestorTransitive(c, head, cand); }
    if IsAncestor(c, cand) && IsAncestor(cand, head) { AncestorTransitive(c, cand, head); }
  }
}
