/**
 The privileged transition engine. SHA-256 is idealised as an injective constructor and the HMAC
 as a table of issued witnesses; the claim text itself is the program's colon-joined string.
 */
module Transition {
  import opened Common
  import opened ColonJoin
  import opened ProposalTable
  import opened KernelStore

  datatype Claim = Claim(
    task: Task, from: State, to: State, subject: string, tree: string, spec: string, tests: string,
    evidence: string, scope: string, governance: string)

  function ClaimFields(c: Claim): seq<string> {
    [c.task, StateName(c.from), StateName(c.to), c.subject, c.tree, c.spec, c.tests, c.evidence, c.scope, c.governance]
  }

  function ClaimText(c: Claim): string {
    Join(ClaimFields(c))
  }

  /** Only the evidence (a raw execution trace) may hold colons. */
  predicate PlainClaim(c: Claim) {
    && ColonFree(c.task) && ColonFree(c.subject) && ColonFree(c.tree) && ColonFree(c.spec)
    && ColonFree(c.tests) && ColonFree(c.scope) && ColonFree(c.governance)
  }

  datatype Digest = Sha(text: string)

  datatype Witness = Witness(id: nat, issuer: string, target: Digest, scope: string)

  /** ProofWitness.verify: the bound digest and scope match, and the kernel really signed it. */
  predicate Authentic(issued: set<Witness>, w: Witness, digest: Digest, scope: string) {
    w.target == digest && w.scope == scope && w in issued
  }

  datatype Request = Request(claim: Claim, proof: Witness)

  datatype Reason = IllegalMove | Replayed | GovernanceMismatch | BadWitness

  datatype Verdict = Accepted | RejectedFor(reason: Reason)

  function Decide(spent: set<nat>, issued: set<Witness>, req: Request, governanceNow: string): Verdict {
    var c := req.claim;
    if !Legal(c.from, c.to) then RejectedFor(IllegalMove)
    else if req.proof.id in spent then RejectedFor(Replayed)
    else if c.governance != governanceNow then RejectedFor(GovernanceMismatch)
    else if !Authentic(issued, req.proof, Sha(ClaimText(c)), c.scope) then RejectedFor(BadWitness)
    else Accepted
  }

  lemma {:induction false} StateNameInjective(a: State, b: State)
    ensures ColonFree(StateName(a))
    ensures StateName(a) == StateName(b) ==> a == b
  {
    var x, y := StateName(a), StateName(b);
    if x == y {
      assert |x| == |y|;
      assert |x| > 0 && x[0] == y[0];
      assert x[|x| - 1] == y[|y| - 1];
    }
  }

  lemma {:induction false} FieldsDetermineClaim(a: Claim, b: Claim)
    requires ClaimFields(a) == ClaimFields(b)
    ensures a == b
  {
    var f, g := ClaimFields(a), ClaimFields(b);
    assert f[0] == g[0] && f[1] == g[1] && f[2] == g[2] && f[3] == g[3] && f[4] == g[4];
    assert f[5] == g[5] && f[6] == g[6] && f[7] == g[7] && f[8] == g[8] && f[9] == g[9];
    StateNameInjective(a.from, b.from);
    StateNameInjective(a.to, b.to);
  }

  lemma {:induction false} PlainFields(c: Claim)
    requires PlainClaim(c)
    ensures OnlyFieldMayHoldColons(ClaimFields(c), 7)
  {
    StateNameInjective(c.from, c.to);
    StateNameInjective(c.to, c.from);
  }

  /** The ten-field encoding distinguishes every two plain claims. */
  lemma {:induction false} ClaimTextInjective(a: Claim, b: Claim)
    requires PlainClaim(a) && PlainClaim(b)
    ensures ClaimText(a) == ClaimText(b) <==> a == b
  {
    if ClaimText(a) == ClaimText(b) {
      PlainFields(a);
      PlainFields(b);
      JoinInjective(ClaimFields(a), ClaimFields(b), 7);
      FieldsDetermineClaim(a, b);
    }
  }

  /** The numbers of the eight free-text fields; fields 1 and 2 are state names. */
  const TEXT_FIELDS: set<nat> := {0, 3, 4, 5, 6, 7, 8, 9}

  function WithField(c: Claim, i: nat, text: string): (r: Claim)
    requires i in TEXT_FIELDS
    ensures ClaimFields(r) == ClaimFields(c)[i := text]
    ensures r.from == c.from && r.to == c.to && r.scope == if i == 8 then text else c.scope
  {
    if i == 0 then c.(task := text)
    else if i == 3 then c.(subject := text)
    else if i == 4 then c.(tree := text)
    else if i == 5 then c.(spec := text)
    else if i == 6 then c.(tests := text)
    else if i == 7 then c.(evidence := text)
    else if i == 8 then c.(scope := text)
    else c.(governance := text)
  }

  /** The claim with text field i emptied and j set to what the join puts between them, or the other way round. */
  function ShiftedClaim(c: Claim, i: nat, j: nat, early: bool): (r: Claim)
    requires i in TEXT_FIELDS && j in TEXT_FIELDS && i < j
    ensures ClaimFields(r) == Shifted(ClaimFields(c), i, j, early)
    ensures r.from == c.from && r.to == c.to
    ensures r.scope == if (if early then i else j) == 8 then Between(ClaimFields(c), i, j)
                       else if i == 8 || j == 8 then "" else c.scope
  {
    var w := Between(ClaimFields(c), i, j);
    WithField(WithField(c, i, if early then w else ""), j, if early then "" else w)
  }

  lemma {:induction false} ShiftedClaimsCollide(c: Claim, i: nat, j: nat)
    requires i in TEXT_FIELDS && j in TEXT_FIELDS && i < j
    ensures ClaimText(ShiftedClaim(c, i, j, true)) == ClaimText(ShiftedClaim(c, i, j, false))
    ensures ShiftedClaim(c, i, j, true) != ShiftedClaim(c, i, j, false)
  {
    ShiftedCollide(ClaimFields(c), i, j);
  }

  predicate ColonsIn(c: Claim, allowed: set<nat>) {
    ColonsOnlyIn(ClaimFields(c), allowed)
  }

  ghost predicate ClaimsDistinguished(allowed: set<nat>) {
    forall a, b :: ColonsIn(a, allowed) && ColonsIn(b, allowed) && ClaimText(a) == ClaimText(b) ==> a == b
  }

  const BLANK := Claim("", State.Verified, State.Verified, "", "", "", "", "", "", "")

  lemma {:induction false} BlankIsPlain()
    ensures ColonsIn(BLANK, {})
  {
    StateNameInjective(State.Verified, State.Verified);
  }

  lemma {:induction false} SameTextSameClaim(a: Claim, b: Claim, allowed: set<nat>)
    requires ColonsIn(a, allowed) && ColonsIn(b, allowed) && ClaimText(a) == ClaimText(b)
    requires InjectiveOn(10, allowed)
    ensures a == b
  {
    FieldsDetermineClaim(a, b);
  }

  /** Claims are told apart by their text exactly when colons are allowed in at most one text field. */
  lemma {:induction false} ClaimTextInjectiveExactly(allowed: set<nat>)
    requires allowed <= TEXT_FIELDS
    ensures ClaimsDistinguished(allowed) <==> |allowed| <= 1
  {
    if |allowed| <= 1 {
      InjectiveExactly(10, allowed);
      forall a, b | ColonsIn(a, allowed) && ColonsIn(b, allowed) && ClaimText(a) == ClaimText(b) ensures a == b {
        SameTextSameClaim(a, b, allowed);
      }
    } else {
      var i, j := TwoOf(allowed);
      BlankIsPlain();
      ShiftedStaysIn(ClaimFields(BLANK), i, j, true, allowed);
      ShiftedStaysIn(ClaimFields(BLANK), i, j, false, allowed);
      ShiftedClaimsCollide(BLANK, i, j);
      assert ColonsIn(ShiftedClaim(BLANK, i, j, true), allowed) && ColonsIn(ShiftedClaim(BLANK, i, j, false), allowed);
    }
  }

  /** A rejection names the first thing wrong: the move, then a replay, then the governance, then the witness. */
  lemma {:induction false} RejectedExactly(spent: set<nat>, issued: set<Witness>, req: Request, governanceNow: string)
    ensures var (v, c, w) := (Decide(spent, issued, req, governanceNow), req.claim, req.proof);
            var authentic := w in issued && w.scope == c.scope && w.target == Sha(ClaimText(c));
            && (v == RejectedFor(IllegalMove) <==> !Legal(c.from, c.to))
            && (v == RejectedFor(Replayed) <==> Legal(c.from, c.to) && w.id in spent)
            && (v == RejectedFor(GovernanceMismatch) <==>
                  Legal(c.from, c.to) && w.id !in spent && c.governance != governanceNow)
            && (v == RejectedFor(BadWitness) <==>
                  Legal(c.from, c.to) && w.id !in spent && c.governance == governanceNow && !authentic)
  {
  }

  /** `issuedFor` records, per witness id, the claim whose digest the kernel signed. */
  ghost predicate IssueLog(issued: set<Witness>, issuedFor: map<nat, Claim>) {
    forall w :: w in issued ==>
      && w.id in issuedFor
      && PlainClaim(issuedFor[w.id])
      && w.target == Sha(ClaimText(issuedFor[w.id]))
      && w.scope == issuedFor[w.id].scope
  }

  /** A request is accepted exactly when it presents an unspent witness issued for this very claim. */
  lemma {:induction false} AcceptedIffIssuedForThisClaim(
    spent: set<nat>, issued: set<Witness>, issuedFor: map<nat, Claim>, req: Request, governanceNow: string)
    requires IssueLog(issued, issuedFor) && PlainClaim(req.claim)
    ensures Decide(spent, issued, req, governanceNow).Accepted? <==>
      && Legal(req.claim.from, req.claim.to)
      && req.proof.id !in spent
      && req.claim.governance == governanceNow
      && req.proof in issued
      && issuedFor[req.proof.id] == req.claim
  {
    if req.proof in issued {
      ClaimTextInjective(issuedFor[req.proof.id], req.claim);
    }
  }

  /**
   Any two text fields collide once both may hold colons: a witness issued for one claim is accepted for
   another, unless one of the two is the scope, which is also compared by itself.
   */
  lemma {:induction false} ColonsInTwoFieldsCollide(spent: set<nat>, w: Witness, c: Claim, i: nat, j: nat)
    requires i in TEXT_FIELDS && j in TEXT_FIELDS && i < j
    requires Legal(c.from, c.to) && w.id !in spent
    requires var a := ShiftedClaim(c, i, j, true); w.target == Sha(ClaimText(a)) && w.scope == a.scope
    ensures var b := ShiftedClaim(c, i, j, false);
            && b != ShiftedClaim(c, i, j, true)
            && (Decide(spent, {w}, Request(b, w), b.governance).Accepted? <==> i != 8 && j != 8)
  {
    ShiftedClaimsCollide(c, i, j);
  }

  /** One engine's inputs over time: each request meets the issue table and governance of its moment. */
  datatype Submission = Submission(req: Request, issued: set<Witness>, governanceNow: string)

  function SpentAfter(spent: set<nat>, s: Submission): set<nat> {
    if Decide(spent, s.issued, s.req, s.governanceNow).Accepted? then spent + {s.req.proof.id} else spent
  }

  function Verdicts(spent: set<nat>, subs: seq<Submission>): (vs: seq<Verdict>)
    ensures |vs| == |subs|
    decreases |subs|
  {
    if subs == [] then []
    else [Decide(spent, subs[0].issued, subs[0].req, subs[0].governanceNow)]
         + Verdicts(SpentAfter(spent, subs[0]), subs[1..])
  }

  lemma {:induction false} SpentStaysSpent(spent: set<nat>, subs: seq<Submission>, j: nat)
    requires j < |subs| && Verdicts(spent, subs)[j].Accepted?
    ensures subs[j].req.proof.id !in spent
    decreases |subs|
  {
    if j > 0 { SpentStaysSpent(SpentAfter(spent, subs[0]), subs[1..], j - 1); }
  }

  /** Over any run of one engine, no witness id is accepted twice. */
  lemma {:induction false} NoWitnessAcceptedTwice(spent: set<nat>, subs: seq<Submission>, i: nat, j: nat)
    requires i < j < |subs|
    requires Verdicts(spent, subs)[i].Accepted? && Verdicts(spent, subs)[j].Accepted?
    ensures subs[i].req.proof.id != subs[j].req.proof.id
    decreases |subs|
  {
    if i > 0 {
      NoWitnessAcceptedTwice(SpentAfter(spent, subs[0]), subs[1..], i - 1, j - 1);
    } else {
      SpentStaysSpent(SpentAfter(spent, subs[0]), subs[1..], j - 1);
    }
  }

  /** The kernel's witness issuer; random witness ids are idealised as fresh numbers. */
  class WitnessAuthority {
    var issued: set<Witness>
    var nextId: nat

    ghost predicate Valid()
      reads this
    {
      forall w :: w in issued ==> w.id < nextId
    }

    constructor ()
      ensures Valid() && issued == {} && nextId == 0
    {
      issued, nextId := {}, 0;
    }

    method Issue(issuer: string, target: Digest, scope: string) returns (w: Witness)
      requires Valid()
      modifies this
      ensures Valid() && nextId == old(nextId) + 1
      ensures w == Witness(old(nextId), issuer, target, scope) && w !in old(issued)
      ensures issued == old(issued) + {w}
    {
      w := Witness(nextId, issuer, target, scope);
      issued, nextId := issued + {w}, nextId + 1;
    }
  }

  class PrivilegedTransitionEngine {
    const db: KernelDatabase
    const authority: WitnessAuthority
    var spent: set<nat>

    constructor (db: KernelDatabase, authority: WitnessAuthority)
      ensures this.db == db && this.authority == authority && spent == {}
    {
      this.db, this.authority, spent := db, authority, {};
    }

    /** An accepted request spends its witness and attempts the move; a failed move is swallowed. */
    method ExecuteTransition(req: Request, governanceNow: string) returns (v: Verdict)
      modifies this, db
      ensures v == Decide(old(spent), authority.issued, req, governanceNow)
      ensures spent == SpentAfter(old(spent), Submission(req, authority.issued, governanceNow))
      ensures db.receipts == old(db.receipts)
      ensures db.proposals ==
        if v.Accepted? then Cas(old(db.proposals), req.claim.task, req.claim.from, req.claim.to)
        else old(db.proposals)
    {
      var c := req.claim;
      if !Legal(c.from, c.to) { return RejectedFor(IllegalMove); }
      if req.proof.id in spent { return RejectedFor(Replayed); }
      if c.governance != governanceNow { return RejectedFor(GovernanceMismatch); }
      if !Authentic(authority.issued, req.proof, Sha(ClaimText(c)), c.scope) { return RejectedFor(BadWitness); }
      spent := spent + {req.proof.id};
      var _ := db.ExecutePrivilegedTransition(db.internalToken, c.task, c.from, c.to);
      v := Accepted;
    }
  }
}
