/** The decomposition gate: dependency completeness, requirement coverage and verification coverage of a plan. */
module Decomposition {
  import opened Common
  import opened Substrate

  predicate Contains(text: string, part: string) {
    part <= text || (text != "" && Contains(text[1..], part))
  }

  predicate OccursAt(text: string, part: string, i: nat) {
    i + |part| <= |text| && text[i..i + |part|] == part
  }

  lemma {:induction false} ContainsExactly(text: string, part: string)
    ensures Contains(text, part) <==> exists i: nat :: OccursAt(text, part, i)
  {
    if part <= text {
      assert OccursAt(text, part, 0);
    } else {
      if text != [] {
        ContainsExactly(text[1..], part);
        forall i: nat ensures OccursAt(text[1..], part, i) <==> OccursAt(text, part, i + 1) {
          if i + 1 + |part| <= |text| { assert text[1..][i..i + |part|] == text[i + 1..i + 1 + |part|]; }
        }
      }
      if i: nat :| OccursAt(text, part, i) {
        assert i > 0;
        assert OccursAt(text[1..], part, i - 1) <==> OccursAt(text, part, i - 1 + 1);
      }
      if Contains(text, part) {
        var i: nat :| OccursAt(text[1..], part, i);
        assert OccursAt(text, part, i + 1);
      }
    }
  }

  /** Containing a text means containing its end. */
  lemma {:induction false} ContainsTail(text: string, head: string, tail: string)
    requires Contains(text, head + tail)
    ensures Contains(text, tail)
  {
    ContainsExactly(text, head + tail);
    var i: nat :| OccursAt(text, head + tail, i);
    assert text[i + |head|..i + |head| + |tail|] == (head + tail)[|head|..] == tail;
    assert OccursAt(text, tail, i + |head|);
    ContainsExactly(text, tail);
  }

  /** The operation an id stands for: the last one carrying it. */
  function OpNamed(ops: seq<Operation>, id: string): (r: Option<Operation>)
    ensures r.Some? ==> r.value in ops && r.value.id == id
    ensures r.None? ==> forall op :: op in ops ==> op.id != id
  {
    if ops == [] then None
    else if ops[|ops| - 1].id == id then Some(ops[|ops| - 1])
    else OpNamed(ops[..|ops| - 1], id)
  }

  predicate SuppliedByDependency(inp: string, op: Operation, ops: seq<Operation>) {
    exists dep :: dep in op.dependencies && OpNamed(ops, dep).Some? && inp in OpNamed(ops, dep).value.outputs
  }

  /** No dependency is unknown and no input floats. */
  predicate Reached(op: Operation, ops: seq<Operation>, produced: set<string>) {
    && (forall dep :: dep in op.dependencies ==> OpNamed(ops, dep).Some?)
    && (forall inp :: inp in op.inputs ==> inp in produced || SuppliedByDependency(inp, op, ops))
  }

  /** The five ways a requirement counts as covered by an operation; four of them are substring tests. */
  predicate Covers(op: Operation, req: string) {
    || Contains(op.id, req)
    || op.obligation == "obl_" + req
    || (exists post :: post in op.postconditions && Contains(post, req))
    || (exists post :: post in op.postconditions && Contains(post, "req_" + req))
    || (exists post :: post in op.postconditions && Contains(post, "obl_" + req))
  }

  predicate Covered(req: Requirement, ops: seq<Operation>) {
    exists i :: 0 <= i < |ops| && Covers(ops[i], req.id)
  }

  predicate Checks(vc: Contract, op: Operation) {
    || vc.operation == op.id
    || (vc.obligation != "" && vc.obligation == op.obligation)
    || vc.condition in op.postconditions
  }

  predicate Verified(op: Operation, contracts: seq<Contract>) {
    exists i :: 0 <= i < |contracts| && Checks(contracts[i], op)
  }

  /** Some operation that names this one as a dependency is itself verified; an empty id is no witness. */
  predicate FeedsVerified(op: Operation, ops: seq<Operation>, contracts: seq<Contract>) {
    exists i :: 0 <= i < |ops| && op.id in ops[i].dependencies && Verified(ops[i], contracts) && ops[i].id != ""
  }

  datatype ClosureStatus = Satisfied | Insufficient

  datatype DecompositionProof = DecompositionProof(
    mapped: seq<string>, uncovered: seq<string>, dependencyComplete: bool,
    terminalCoverage: real, verificationCoverage: real, status: ClosureStatus)

  function Uncovered(reqs: seq<Requirement>, ops: seq<Operation>): (r: seq<string>)
    ensures |r| <= |reqs|
    ensures r == [] <==> forall req :: req in reqs ==> Covered(req, ops)
  {
    if reqs == [] then []
    else
      var n := |reqs| - 1;
      assert reqs == reqs[..n] + [reqs[n]];
      Uncovered(reqs[..n], ops) + if Covered(reqs[n], ops) then [] else [reqs[n].description]
  }

  predicate ReachedAt(ops: seq<Operation>, known: set<string>, k: nat)
    requires k < |ops|
  {
    Reached(ops[k], ops, Supplied(known, ops, k))
  }

  ghost predicate AllReached(ops: seq<Operation>, known: set<string>, n: nat)
    requires n <= |ops|
  {
    forall k {:trigger ReachedAt(ops, known, k)} :: 0 <= k < n ==> ReachedAt(ops, known, k)
  }

  predicate VerifiedAt(ops: seq<Operation>, contracts: seq<Contract>, k: nat)
    requires k < |ops|
  {
    Verified(ops[k], contracts) || FeedsVerified(ops[k], ops, contracts)
  }

  ghost predicate AllVerified(ops: seq<Operation>, contracts: seq<Contract>, n: nat)
    requires n <= |ops|
  {
    forall k {:trigger VerifiedAt(ops, contracts, k)} :: 0 <= k < n ==> VerifiedAt(ops, contracts, k)
  }

  /** What the gate asks of a plan. */
  ghost predicate Complete(reqs: seq<Requirement>, ops: seq<Operation>, contracts: seq<Contract>, known: set<string>) {
    && (forall req :: req in reqs ==> Covered(req, ops))
    && AllReached(ops, known, |ops|)
    && AllVerified(ops, contracts, |ops|)
  }

  // ---- What the gate asks, position by position ----

  /** Position i holds the operation an id stands for: the last of its name. */
  predicate StandsFor(ops: seq<Operation>, id: string, i: nat) {
    i < |ops| && ops[i].id == id && forall j :: i < j < |ops| ==> ops[j].id != id
  }

  lemma {:induction false} NamedExactly(ops: seq<Operation>, id: string, i: nat)
    ensures StandsFor(ops, id, i) ==> OpNamed(ops, id) == Some(ops[i])
    ensures OpNamed(ops, id).Some? ==> exists j: nat :: StandsFor(ops, id, j)
  {
    if ops != [] {
      var n := |ops| - 1;
      if ops[n].id == id {
        assert StandsFor(ops, id, n);
      } else {
        NamedExactly(ops[..n], id, i);
        if j: nat :| StandsFor(ops[..n], id, j) { assert StandsFor(ops, id, j); }
      }
    }
  }

  /** The input is given, or put out by an operation listed before, or by one that operation k depends on. */
  ghost predicate Available(ops: seq<Operation>, known: set<string>, k: nat, inp: string)
    requires k < |ops|
  {
    || inp in known
    || (exists j :: 0 <= j < k && inp in ops[j].outputs)
    || (exists j: nat :: j < |ops| && StandsFor(ops, ops[j].id, j) && ops[j].id in ops[k].dependencies &&
                         inp in ops[j].outputs)
  }

  ghost predicate WellSupplied(ops: seq<Operation>, known: set<string>, k: nat)
    requires k < |ops|
  {
    && (forall i :: 0 <= i < |ops[k].dependencies| ==>
          exists j :: 0 <= j < |ops| && ops[j].id == ops[k].dependencies[i])
    && (forall i :: 0 <= i < |ops[k].inputs| ==> Available(ops, known, k, ops[k].inputs[i]))
  }

  /** A contract checks the operation: by its id, by its obligation, or by a condition it promises. */
  ghost predicate HasCheck(op: Operation, contracts: seq<Contract>) {
    exists i :: 0 <= i < |contracts| &&
      (contracts[i].operation == op.id ||
       (contracts[i].obligation == op.obligation && op.obligation != "") ||
       exists j :: 0 <= j < |op.postconditions| && op.postconditions[j] == contracts[i].condition)
  }

  /** The operation is checked, or one with a name that depends on it is. */
  ghost predicate CheckedOrFeeding(ops: seq<Operation>, contracts: seq<Contract>, k: nat)
    requires k < |ops|
  {
    HasCheck(ops[k], contracts) ||
    exists j :: 0 <= j < |ops| && ops[j].id != "" && ops[k].id in ops[j].dependencies && HasCheck(ops[j], contracts)
  }

  ghost predicate Says(text: string, part: string) {
    exists i: nat :: OccursAt(text, part, i)
  }

  /** The operation's id mentions the requirement, or its obligation is the requirement's, or a postcondition mentions
      it. */
  ghost predicate Addresses(op: Operation, req: string) {
    Says(op.id, req) || op.obligation == "obl_" + req ||
    exists j :: 0 <= j < |op.postconditions| && Says(op.postconditions[j], req)
  }

  ghost predicate SomeAddresses(ops: seq<Operation>, req: string) {
    exists k :: 0 <= k < |ops| && Addresses(ops[k], req)
  }

  /** What the gate asks, from the fields of the operations and contracts. */
  ghost predicate Passable(reqs: seq<Requirement>, ops: seq<Operation>, contracts: seq<Contract>, known: set<string>) {
    && (forall i :: 0 <= i < |reqs| ==> SomeAddresses(ops, reqs[i].id))
    && (forall k :: 0 <= k < |ops| ==> WellSupplied(ops, known, k))
    && (forall k :: 0 <= k < |ops| ==> CheckedOrFeeding(ops, contracts, k))
  }

  lemma {:induction false} AddressesExactly(op: Operation, req: string)
    ensures Covers(op, req) <==> Addresses(op, req)
  {
    forall text, part ensures Contains(text, part) <==> Says(text, part) { ContainsExactly(text, part); }
    forall post | post in op.postconditions
      ensures Contains(post, "req_" + req) || Contains(post, "obl_" + req) ==> Contains(post, req)
    {
      if Contains(post, "req_" + req) { ContainsTail(post, "req_", req); }
      if Contains(post, "obl_" + req) { ContainsTail(post, "obl_", req); }
    }
    if post :| post in op.postconditions && Contains(post, req) {
      var j :| 0 <= j < |op.postconditions| && op.postconditions[j] == post;
      assert Says(op.postconditions[j], req);
    }
  }

  lemma {:induction false} SuppliedExactly(known: set<string>, ops: seq<Operation>, n: nat, inp: string)
    requires n <= |ops|
    ensures inp in Supplied(known, ops, n) <==> inp in known || exists j :: 0 <= j < n && inp in ops[j].outputs
  {
    if n > 0 { SuppliedExactly(known, ops, n - 1, inp); }
  }

  lemma {:induction false} AvailableExactly(ops: seq<Operation>, known: set<string>, k: nat, inp: string)
    requires k < |ops|
    ensures Available(ops, known, k, inp) <==>
            inp in Supplied(known, ops, k) || SuppliedByDependency(inp, ops[k], ops)
  {
    SuppliedExactly(known, ops, k, inp);
    if SuppliedByDependency(inp, ops[k], ops) {
      var dep :| dep in ops[k].dependencies && OpNamed(ops, dep).Some? && inp in OpNamed(ops, dep).value.outputs;
      NamedExactly(ops, dep, 0);
      var j: nat :| StandsFor(ops, dep, j);
      NamedExactly(ops, dep, j);
    }
    if j: nat :| j < |ops| && StandsFor(ops, ops[j].id, j) && ops[j].id in ops[k].dependencies &&
                 inp in ops[j].outputs {
      NamedExactly(ops, ops[j].id, j);
      assert ops[j].id in ops[k].dependencies && OpNamed(ops, ops[j].id) == Some(ops[j]);
    }
  }

  lemma {:induction false} WellSuppliedExactly(ops: seq<Operation>, known: set<string>, k: nat)
    requires k < |ops|
    ensures WellSupplied(ops, known, k) <==> ReachedAt(ops, known, k)
  {
    var op := ops[k];
    forall inp { AvailableExactly(ops, known, k, inp); }
    assert (forall inp :: inp in op.inputs ==> Available(ops, known, k, inp)) <==>
           forall i :: 0 <= i < |op.inputs| ==> Available(ops, known, k, op.inputs[i]);
    forall dep ensures OpNamed(ops, dep).Some? <==> exists j :: 0 <= j < |ops| && ops[j].id == dep {
      if OpNamed(ops, dep).Some? { var j :| 0 <= j < |ops| && ops[j] == OpNamed(ops, dep).value; }
    }
    assert (forall dep :: dep in op.dependencies ==> OpNamed(ops, dep).Some?) <==>
           forall i :: 0 <= i < |op.dependencies| ==> OpNamed(ops, op.dependencies[i]).Some?;
  }

  lemma {:induction false} HasCheckExactly(op: Operation, contracts: seq<Contract>)
    ensures HasCheck(op, contracts) <==> Verified(op, contracts)
  {
    forall i | 0 <= i < |contracts|
      ensures Checks(contracts[i], op) <==>
              contracts[i].operation == op.id || (contracts[i].obligation == op.obligation && op.obligation != "") ||
              exists j :: 0 <= j < |op.postconditions| && op.postconditions[j] == contracts[i].condition
    {
    }
  }

  /** The gate is satisfied exactly when the plan is passable. */
  lemma {:induction false} GateInFields(
      reqs: seq<Requirement>, ops: seq<Operation>, contracts: seq<Contract>, known: set<string>)
    ensures Complete(reqs, ops, contracts, known) <==> Passable(reqs, ops, contracts, known)
  {
    forall k | 0 <= k < |ops| ensures WellSupplied(ops, known, k) <==> ReachedAt(ops, known, k) {
      WellSuppliedExactly(ops, known, k);
    }
    forall k | 0 <= k < |ops| ensures CheckedOrFeeding(ops, contracts, k) <==> VerifiedAt(ops, contracts, k) {
      CheckedExactly(ops, contracts, k);
    }
    CoverageExactly(reqs, ops);
  }

  lemma {:induction false} CheckedExactly(ops: seq<Operation>, contracts: seq<Contract>, k: nat)
    requires k < |ops|
    ensures CheckedOrFeeding(ops, contracts, k) <==> VerifiedAt(ops, contracts, k)
  {
    forall op { HasCheckExactly(op, contracts); }
  }

  lemma {:induction false} CoveredByFields(req: Requirement, ops: seq<Operation>)
    ensures Covered(req, ops) <==> SomeAddresses(ops, req.id)
  {
    if k :| 0 <= k < |ops| && Addresses(ops[k], req.id) { AddressesExactly(ops[k], req.id); }
    if k :| 0 <= k < |ops| && Covers(ops[k], req.id) { AddressesExactly(ops[k], req.id); }
  }

  lemma {:induction false} CoverageExactly(reqs: seq<Requirement>, ops: seq<Operation>)
    ensures (forall req :: req in reqs ==> Covered(req, ops)) <==>
            forall i :: 0 <= i < |reqs| ==> SomeAddresses(ops, reqs[i].id)
  {
    forall i | 0 <= i < |reqs| ensures Covered(reqs[i], ops) <==> SomeAddresses(ops, reqs[i].id) {
      CoveredByFields(reqs[i], ops);
    }
    assert forall req :: req in reqs ==> exists i :: 0 <= i < |reqs| && reqs[i] == req;
  }

  ghost predicate Described(reqs: seq<Requirement>, n: nat, text: string, left: Requirement -> bool)
    requires n <= |reqs|
  {
    exists i :: 0 <= i < n && reqs[i].description == text && left(reqs[i])
  }

  ghost function Unaddressed(ops: seq<Operation>): Requirement -> bool {
    (req: Requirement) => !SomeAddresses(ops, req.id)
  }

  lemma {:induction false} UncoveredStep(reqs: seq<Requirement>, req: Requirement, ops: seq<Operation>, text: string)
    ensures text in Uncovered(reqs + [req], ops) <==>
            text in Uncovered(reqs, ops) || (req.description == text && !Covered(req, ops))
  {
    assert (reqs + [req])[..|reqs|] == reqs;
  }

  ghost predicate ListsOneByOne(listed: seq<Requirement> -> bool, text: string, left: Requirement -> bool) {
    !listed([]) &&
    forall reqs, req: Requirement :: listed(reqs + [req]) <==> listed(reqs) || (req.description == text && left(req))
  }

  lemma {:induction false} ListedExactly(
      reqs: seq<Requirement>, n: nat, listed: seq<Requirement> -> bool, text: string, left: Requirement -> bool)
    requires n <= |reqs| && ListsOneByOne(listed, text, left)
    ensures listed(reqs[..n]) <==> Described(reqs, n, text, left)
  {
    if n > 0 {
      ListedExactly(reqs, n - 1, listed, text, left);
      assert reqs[..n] == reqs[..n - 1] + [reqs[n - 1]];
    }
  }

  lemma {:induction false} UncoveredListsOneByOne(ops: seq<Operation>, text: string, listed: seq<Requirement> -> bool)
    requires listed == ((reqs: seq<Requirement>) => text in Uncovered(reqs, ops))
    ensures ListsOneByOne(listed, text, Unaddressed(ops))
  {
    forall reqs, req: Requirement
      ensures listed(reqs + [req]) <==> listed(reqs) || (req.description == text && Unaddressed(ops)(req))
    {
      UncoveredStep(reqs, req, ops, text);
      CoveredByFields(req, ops);
    }
  }

  /** Exactly the descriptions of the requirements that no operation addresses are listed as uncovered. */
  lemma {:induction false} UncoveredExactly(reqs: seq<Requirement>, ops: seq<Operation>, text: string)
    ensures text in Uncovered(reqs, ops) <==> Described(reqs, |reqs|, text, Unaddressed(ops))
  {
    var listed := (reqs: seq<Requirement>) => text in Uncovered(reqs, ops);
    UncoveredListsOneByOne(ops, text, listed);
    ListedExactly(reqs, |reqs|, listed, text, Unaddressed(ops));
    assert reqs[..|reqs|] == reqs;
  }

  /** The operations that are checked or feed one that is. */
  ghost function CheckedOnes(ops: seq<Operation>, contracts: seq<Contract>, n: nat): set<nat>
    requires n <= |ops|
  {
    set k: nat | k < n && VerifiedAt(ops, contracts, k)
  }

  lemma {:induction false} OneMoreChecked(ops: seq<Operation>, contracts: seq<Contract>, n: nat)
    requires n < |ops|
    ensures |CheckedOnes(ops, contracts, n + 1)| ==
            |CheckedOnes(ops, contracts, n)| + if VerifiedAt(ops, contracts, n) then 1 else 0
  {
    var before := CheckedOnes(ops, contracts, n);
    assert CheckedOnes(ops, contracts, n + 1) == if VerifiedAt(ops, contracts, n) then before + {n} else before;
  }

  method EvaluateDecomposition(
      reqs: seq<Requirement>, ops: seq<Operation>, contracts: seq<Contract>, known: set<string>)
      returns (proof: DecompositionProof)
    ensures proof.status == Satisfied <==> Complete(reqs, ops, contracts, known)
    ensures proof.uncovered == Uncovered(reqs, ops)
    ensures proof.dependencyComplete <==> AllReached(ops, known, |ops|)
    ensures 0.0 <= proof.terminalCoverage <= 1.0 && 0.0 <= proof.verificationCoverage <= 1.0
    ensures reqs != [] ==> proof.terminalCoverage == (|reqs| - |proof.uncovered|) as real / |reqs| as real
    ensures ops != [] ==>
              proof.verificationCoverage == |CheckedOnes(ops, contracts, |ops|)| as real / |ops| as real
    ensures |proof.mapped| == |ops| && forall k :: 0 <= k < |ops| ==> proof.mapped[k] == ops[k].id
  {
    var mapped := seq(|ops|, i requires 0 <= i < |ops| => ops[i].id);
    var complete := CheckDependencies(ops, known);
    var uncovered := FindUncovered(reqs, ops);
    var verified := CountVerified(ops, contracts);
    var terminal := Ratio(|reqs| - |uncovered|, |reqs|);
    var verification := Ratio(verified, |ops|);
    var satisfied := terminal == 1.0 && complete && verification == 1.0 && uncovered == [];
    proof := DecompositionProof(mapped, uncovered, complete, terminal, verification,
                                if satisfied then Satisfied else Insufficient);
  }

  method CheckDependencies(ops: seq<Operation>, known: set<string>) returns (complete: bool)
    ensures complete <==> AllReached(ops, known, |ops|)
  {
    var produced := known;
    complete := true;
    for i := 0 to |ops|
      invariant produced == Supplied(known, ops, i)
      invariant complete <==> AllReached(ops, known, i)
    {
      var ok := CheckOperation(ops[i], ops, produced);
      assert AllReached(ops, known, i + 1) <==> AllReached(ops, known, i) && ReachedAt(ops, known, i);
      complete := complete && ok;
      produced := produced + KeySet(ops[i].outputs);
    }
  }

  method FindUncovered(reqs: seq<Requirement>, ops: seq<Operation>) returns (uncovered: seq<string>)
    ensures uncovered == Uncovered(reqs, ops)
  {
    uncovered := [];
    for i := 0 to |reqs|
      invariant uncovered == Uncovered(reqs[..i], ops)
    {
      assert reqs[..i + 1][..i] == reqs[..i];
      if !Covered(reqs[i], ops) { uncovered := uncovered + [reqs[i].description]; }
    }
    assert reqs[..|reqs|] == reqs;
  }

  method CountVerified(ops: seq<Operation>, contracts: seq<Contract>) returns (verified: nat)
    ensures verified <= |ops|
    ensures verified == |ops| <==> AllVerified(ops, contracts, |ops|)
    ensures verified == |CheckedOnes(ops, contracts, |ops|)|
  {
    verified := 0;
    for i := 0 to |ops|
      invariant 0 <= verified <= i
      invariant verified == i <==> AllVerified(ops, contracts, i)
      invariant verified == |CheckedOnes(ops, contracts, i)|
    {
      OneMoreChecked(ops, contracts, i);
      assert AllVerified(ops, contracts, i + 1) <==> AllVerified(ops, contracts, i) && VerifiedAt(ops, contracts, i);
      if Verified(ops[i], contracts) {
        verified := verified + 1;
      } else if FeedsVerified(ops[i], ops, contracts) {
        verified := verified + 1;
      }
    }
  }

  /** A share of a list, with an empty list fully covered. */
  function Ratio(part: nat, whole: nat): (r: real)
    requires part <= whole
    ensures 0.0 <= r <= 1.0
    ensures r == 1.0 <==> part == whole
  {
    if whole == 0 then 1.0
    else
      RatioBounds(part, whole);
      part as real / whole as real
  }

  lemma {:induction false} RatioBounds(part: nat, whole: nat)
    requires part <= whole && whole > 0
    ensures 0.0 <= part as real / whole as real <= 1.0
    ensures part as real / whole as real == 1.0 <==> part == whole
  {
    var (p, w) := (part as real, whole as real);
    assert p / w * w == p;
  }

  method CheckOperation(op: Operation, ops: seq<Operation>, produced: set<string>) returns (ok: bool)
    ensures ok <==> Reached(op, ops, produced)
  {
    ok := true;
    for i := 0 to |op.dependencies|
      invariant ok
      invariant forall dep :: dep in op.dependencies[..i] ==> OpNamed(ops, dep).Some?
    {
      if OpNamed(ops, op.dependencies[i]).None? {
        ok := false;
        break;
      }
    }
    for i := 0 to |op.inputs|
      invariant ok ==> forall dep :: dep in op.dependencies ==> OpNamed(ops, dep).Some?
      invariant ok ==> forall inp :: inp in op.inputs[..i] ==> inp in produced || SuppliedByDependency(inp, op, ops)
      invariant !ok ==> !Reached(op, ops, produced)
    {
      if !(op.inputs[i] in produced || SuppliedByDependency(op.inputs[i], op, ops)) { ok := false; }
    }
  }

  // ---- What the substring tests come to ----

  /** An operation the resolver induces for this obligation. */
  predicate InducedFor(op: Operation, obligation: string) {
    && op.id == "op_" + obligation && op.obligation == obligation
    && op.postconditions == ["Satisfied " + obligation]
  }

  predicate Mentions(obligation: string, req: string) {
    Contains("op_" + obligation, req) || Contains("Satisfied " + obligation, req)
  }

  /** For an induced operation two of the five tests decide. */
  lemma {:induction false} InducedCoversExactly(op: Operation, obligation: string, req: string)
    requires InducedFor(op, obligation)
    ensures Covers(op, req) <==> Mentions(obligation, req)
  {
    var post := "Satisfied " + obligation;
    assert op.postconditions[0] == post;
    if Contains(post, "req_" + req) { ContainsTail(post, "req_", req); }
    if Contains(post, "obl_" + req) { ContainsTail(post, "obl_", req); }
    if obligation == "obl_" + req { MentionsItself(req); }
  }

  lemma {:induction false} MentionsItself(req: string)
    ensures Mentions("obl_" + req, req)
  {
    var text := "op_" + ("obl_" + req);
    assert text[7..7 + |req|] == req;
    assert OccursAt(text, req, 7);
    ContainsExactly(text, req);
  }

  /** With the letter r nowhere else, a numbered requirement occurs where it stands and nowhere else. */
  lemma {:induction false} NumberOccursAt(head: string, a: string, b: string, i: nat)
    requires 'r' !in head && 'r' !in b
    ensures OccursAt(head + ("req_" + b), "req_" + a, i) <==> i == |head| && a <= b
  {
    var text, part := head + ("req_" + b), "req_" + a;
    assert text[|head|..] == "req_" + b;
    assert "req_"[0] == 'r';
    assert forall j :: 0 <= j < |head| ==> text[j] == head[j] && head[j] in head;
    assert forall j :: 0 <= j < |b| ==> text[j + |head| + 4] == b[j] && b[j] in b;
    forall j | |head| + 4 <= j < |text| ensures text[j] != 'r' { assert text[j - |head| - 4 + |head| + 4] == text[j]; }
    if OccursAt(text, part, i) {
      assert text[i] == text[i..i + |part|][0] == 'r';
      assert part == text[|head|..][..|part|] == ("req_" + b)[..4 + |a|];
      assert a == part[4..] == b[..|a|];
    }
    if i == |head| && a <= b {
      assert text[i..i + |part|] == ("req_" + b)[..4 + |a|] == part;
    }
  }

  lemma {:induction false} ContainsNumber(head: string, a: string, b: string)
    requires 'r' !in head && 'r' !in b
    ensures Contains(head + ("req_" + b), "req_" + a) <==> a <= b
  {
    ContainsExactly(head + ("req_" + b), "req_" + a);
    forall i: nat { NumberOccursAt(head, a, b, i); }
    if a <= b { assert OccursAt(head + ("req_" + b), "req_" + a, |head|); }
  }
}
