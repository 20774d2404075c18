/** Deriving obligations: every requirement is turned into one obligation by its one grounded interpretation. */
module Obligations {
  import opened Common
  import opened Substrate
  import opened Resolution

  datatype AuthoritySource =
    | SourceExplicitContract | VerifiedDomainAuthority | SystemInvariantSource
    | ExplicitHumanApproval | ExternalEvidence | UnverifiedModelProposal

  datatype SemanticContract = SemanticContract(
    effect: string, inputs: seq<string>, outputs: seq<string>, evidence: seq<EvidenceNeed>,
    authorityNeeds: seq<string>, expected: Store)

  /** A candidate interpretation; `proof` is the source of its persisted proof, if the verifier grounded it. */
  datatype Interpretation = Interpretation(
    requirement: string, contract: SemanticContract, blocking: bool, proof: Option<AuthoritySource>)

  predicate Grounds(c: Interpretation, id: string) {
    c.requirement == id && c.proof.Some?
  }

  function GroundedFor(cands: seq<Interpretation>, id: string): (r: seq<Interpretation>)
    ensures forall i :: 0 <= i < |r| ==> r[i] in cands && Grounds(r[i], id)
    ensures forall c :: c in cands && Grounds(c, id) ==> c in r
  {
    if cands == [] then []
    else
      var n := |cands| - 1;
      assert cands == cands[..n] + [cands[n]];
      GroundedFor(cands[..n], id) + if Grounds(cands[n], id) then [cands[n]] else []
  }

  /** What the grounded interpretations of one requirement amount to. */
  datatype Reading = Unread | Unique(contract: SemanticContract, blocking: bool, source: AuthoritySource) | Conflicting

  function ReadingOf(cands: seq<Interpretation>, id: string): (r: Reading)
    ensures r.Unique? ==> Interpretation(id, r.contract, r.blocking, Some(r.source)) in cands
    ensures r.Unread? <==> forall c :: c in cands ==> !Grounds(c, id)
  {
    var grounded := GroundedFor(cands, id);
    assert grounded != [] ==> Grounds(grounded[0], id) && grounded[0] in cands;
    if |grounded| > 1 then Conflicting
    else if |grounded| == 1 then Unique(grounded[0].contract, grounded[0].blocking, grounded[0].proof.value)
    else Unread
  }

  /** Exactly one interpretation grounds the requirement. */
  ghost predicate OnlyGround(cands: seq<Interpretation>, id: string, i: nat) {
    i < |cands| && Grounds(cands[i], id) && forall j :: 0 <= j < |cands| && j != i ==> !Grounds(cands[j], id)
  }

  lemma {:induction false} GroundedCount(cands: seq<Interpretation>, id: string)
    ensures |GroundedFor(cands, id)| == 0 <==> forall i :: 0 <= i < |cands| ==> !Grounds(cands[i], id)
    ensures |GroundedFor(cands, id)| == 1 <==> exists i: nat :: OnlyGround(cands, id, i)
  {
    if cands != [] {
      var n := |cands| - 1;
      var init := cands[..n];
      GroundedCount(init, id);
      if |GroundedFor(cands, id)| == 1 {
        if Grounds(cands[n], id) {
          assert OnlyGround(cands, id, n);
        } else {
          var i: nat :| OnlyGround(init, id, i);
          assert OnlyGround(cands, id, i);
        }
      }
      if i: nat :| OnlyGround(cands, id, i) {
        if i < n { assert OnlyGround(init, id, i); }
      }
    }
  }

  /** A requirement is read exactly when one interpretation grounds it; two in conflict decide nothing. */
  lemma {:induction false} ReadExactly(cands: seq<Interpretation>, id: string)
    ensures ReadingOf(cands, id).Unique? <==> exists i: nat :: OnlyGround(cands, id, i)
  {
    GroundedCount(cands, id);
  }

  function AuthorityOf(source: AuthoritySource): Authority {
    match source
    case SourceExplicitContract => SourceGrounded
    case SystemInvariantSource => SystemInvariant
    case VerifiedDomainAuthority => VerifiedDomainDerived
    case ExternalEvidence => VerifiedDomainDerived
    case _ => HumanApproved
  }

  function ObligationOf(req: Requirement, r: Reading): Obligation
    requires r.Unique?
  {
    Obligation("obl_" + req.id, AuthorityOf(r.source), r.contract.effect, r.contract.inputs, r.contract.outputs,
               r.contract.evidence, r.contract.authorityNeeds, r.blocking, r.contract.expected)
  }

  datatype Derivation = Derivation(obligations: seq<Obligation>, deficits: seq<Deficit>)

  function DeriveOne(d: Derivation, req: Requirement, r: Reading): Derivation {
    if r.Unique? then d.(obligations := d.obligations + [ObligationOf(req, r)])
    else if !req.blocking then d
    else d.(deficits := d.deficits + [Deficit(if r.Unread? then SemanticBindingDeficit
        else AmbiguousDeficit, "obl_" + req.id)])
  }

  function Derive(reqs: seq<Requirement>, read: string -> Reading, n: nat): Derivation
    requires n <= |reqs|
  {
    if n == 0 then Derivation([], []) else DeriveOne(Derive(reqs, read, n - 1), reqs[n - 1], read(reqs[n - 1].id))
  }

  lemma {:induction false} NoDeficitExactly(reqs: seq<Requirement>, read: string -> Reading, n: nat)
    requires n <= |reqs|
    ensures Derive(reqs, read, n).deficits == [] <==>
            forall k :: 0 <= k < n && reqs[k].blocking ==> read(reqs[k].id).Unique?
  {
    if n > 0 { NoDeficitExactly(reqs, read, n - 1); }
  }

  /** With every requirement blocking and no deficit, obligation k is the reading of requirement k. */
  lemma {:induction false} OneObligationEach(reqs: seq<Requirement>, read: string -> Reading, n: nat)
    requires n <= |reqs|
    requires forall k :: 0 <= k < n ==> reqs[k].blocking
    requires Derive(reqs, read, n).deficits == []
    ensures |Derive(reqs, read, n).obligations| == n
    ensures forall k :: 0 <= k < n ==>
              read(reqs[k].id).Unique?
              && Derive(reqs, read, n).obligations[k] == ObligationOf(reqs[k], read(reqs[k].id))
  {
    if n > 0 { OneObligationEach(reqs, read, n - 1); }
  }

  /** Whatever the source of its proof, a derived obligation passes both authority checks downstream. */
  lemma {:induction false} DerivedHaveAuthority(reqs: seq<Requirement>, read: string -> Reading, n: nat)
    requires n <= |reqs|
    ensures forall k :: 0 <= k < |Derive(reqs, read, n).obligations| ==>
              Derive(reqs, read, n).obligations[k].HasClosureAuthority()
  {
    if n > 0 { DerivedHaveAuthority(reqs, read, n - 1); }
  }

  ghost predicate AnyObligation(obls: seq<Obligation>, p: string -> bool) {
    exists k :: 0 <= k < |obls| && p(obls[k].id)
  }

  ghost predicate AnyRead(reqs: seq<Requirement>, read: string -> Reading, n: nat, p: string -> bool)
    requires n <= |reqs|
  {
    exists k :: 0 <= k < n && read(reqs[k].id).Unique? && p("obl_" + reqs[k].id)
  }

  lemma {:induction false} AnyObligationSnoc(obls: seq<Obligation>, o: Obligation, p: string -> bool)
    ensures AnyObligation(obls + [o], p) <==> AnyObligation(obls, p) || p(o.id)
  {
    var all := obls + [o];
    assert all[|obls|] == o;
    if k :| 0 <= k < |obls| && p(obls[k].id) { assert all[k] == obls[k]; }
  }

  lemma {:induction false} AnyReadSnoc(reqs: seq<Requirement>, read: string -> Reading, n: nat, p: string -> bool)
    requires 0 < n <= |reqs|
    ensures AnyRead(reqs, read, n, p) <==>
            AnyRead(reqs, read, n - 1, p) || (read(reqs[n - 1].id).Unique? && p("obl_" + reqs[n - 1].id))
  {
  }

  /** The ids of the derived obligations are those made from the requirements that are read. */
  lemma {:induction false} DerivedExactly(reqs: seq<Requirement>, read: string -> Reading, n: nat, p: string -> bool)
    requires n <= |reqs|
    ensures AnyObligation(Derive(reqs, read, n).obligations, p) <==> AnyRead(reqs, read, n, p)
  {
    if n > 0 {
      DerivedExactly(reqs, read, n - 1, p);
      AnyReadSnoc(reqs, read, n, p);
      var req := reqs[n - 1];
      if read(req.id).Unique? {
        AnyObligationSnoc(Derive(reqs, read, n - 1).obligations, ObligationOf(req, read(req.id)), p);
      }
    }
  }

  function Readings(cands: seq<Interpretation>): string -> Reading {
    id => ReadingOf(cands, id)
  }

  // ---- What is derived, field by field ----

  /** The obligation says what this interpretation of the requirement says, with the authority of its proof's source. */
  predicate Carries(o: Obligation, req: Requirement, c: Interpretation) {
    && o.id == "obl_" + req.id
    && o.effect == c.contract.effect && o.blocking == c.blocking
    && o.inputs == c.contract.inputs && o.outputs == c.contract.outputs
    && o.evidence == c.contract.evidence && o.authorityNeeds == c.contract.authorityNeeds
    && o.expected == c.contract.expected
    && c.proof.Some? && Befits(o.authority, c.proof.value)
  }

  predicate Befits(authority: Authority, source: AuthoritySource) {
    && (authority == SourceGrounded <==> source == SourceExplicitContract)
    && (authority == SystemInvariant <==> source == SystemInvariantSource)
    && (authority == VerifiedDomainDerived <==> source in {VerifiedDomainAuthority, ExternalEvidence})
    && (authority == HumanApproved <==> source in {ExplicitHumanApproval, UnverifiedModelProposal})
  }

  /** An interpretation of this requirement whose proof is persisted. */
  predicate Proven(c: Interpretation, req: Requirement) {
    c.requirement == req.id && c.proof.Some?
  }

  ghost predicate OnlyProven(cands: seq<Interpretation>, req: Requirement, i: nat) {
    i < |cands| && Proven(cands[i], req) && forall j :: 0 <= j < |cands| && j != i ==> !Proven(cands[j], req)
  }

  /** The one proven interpretation of a requirement. */
  ghost predicate Sole(cands: seq<Interpretation>, req: Requirement, c: Interpretation) {
    exists i: nat :: OnlyProven(cands, req, i) && cands[i] == c
  }

  ghost predicate Settled(cands: seq<Interpretation>, req: Requirement) {
    exists i: nat :: OnlyProven(cands, req, i)
  }

  /** Two proven interpretations of the requirement. */
  ghost predicate Contested(cands: seq<Interpretation>, req: Requirement) {
    exists i, j :: 0 <= i < j < |cands| && Proven(cands[i], req) && Proven(cands[j], req)
  }

  lemma {:induction false} OnlyProvenExactly(cands: seq<Interpretation>, req: Requirement, i: nat)
    ensures OnlyProven(cands, req, i) <==> OnlyGround(cands, req.id, i)
  {
    forall c: Interpretation ensures Proven(c, req) <==> Grounds(c, req.id) {}
  }

  /** The requirements that have a sole ground, in order. */
  ghost function SettledOnes(reqs: seq<Requirement>, cands: seq<Interpretation>): (r: seq<Requirement>)
    ensures forall req :: req in r <==> req in reqs && Settled(cands, req)
  {
    if reqs == [] then []
    else
      var n := |reqs| - 1;
      assert reqs == reqs[..n] + [reqs[n]];
      SettledOnes(reqs[..n], cands) + if Settled(cands, reqs[n]) then [reqs[n]] else []
  }

  /** The blocking requirements that have none, in order. */
  ghost function OpenOnes(reqs: seq<Requirement>, cands: seq<Interpretation>): (r: seq<Requirement>)
    ensures forall req :: req in r <==> req in reqs && req.blocking && !Settled(cands, req)
  {
    if reqs == [] then []
    else
      var n := |reqs| - 1;
      assert reqs == reqs[..n] + [reqs[n]];
      OpenOnes(reqs[..n], cands) + if reqs[n].blocking && !Settled(cands, reqs[n]) then [reqs[n]] else []
  }

  ghost predicate CarriesSole(o: Obligation, req: Requirement, cands: seq<Interpretation>) {
    exists c :: Sole(cands, req, c) && Carries(o, req, c)
  }

  /** A deficit names the requirement and whether it has too many grounds or none. */
  ghost predicate Misses(d: Deficit, req: Requirement, cands: seq<Interpretation>) {
    d.obligation == "obl_" + req.id
    && d.kind == if Contested(cands, req) then AmbiguousDeficit else SemanticBindingDeficit
  }

  /** One obligation for every settled requirement and one deficit for every open blocking one, in order. */
  ghost predicate Renders(
      reqs: seq<Requirement>, cands: seq<Interpretation>, obls: seq<Obligation>, deficits: seq<Deficit>)
  {
    CarryAll(obls, SettledOnes(reqs, cands), cands) && MissAll(deficits, OpenOnes(reqs, cands), cands)
  }

  ghost predicate CarryAll(obls: seq<Obligation>, settled: seq<Requirement>, cands: seq<Interpretation>) {
    |obls| == |settled| && forall k :: 0 <= k < |obls| ==> CarriesSole(obls[k], settled[k], cands)
  }

  ghost predicate MissAll(deficits: seq<Deficit>, open: seq<Requirement>, cands: seq<Interpretation>) {
    |deficits| == |open| && forall k :: 0 <= k < |deficits| ==> Misses(deficits[k], open[k], cands)
  }

  lemma {:induction false} SoleIsRead(cands: seq<Interpretation>, id: string, i: nat)
    requires OnlyGround(cands, id, i)
    ensures GroundedFor(cands, id) == [cands[i]]
  {
    GroundedCount(cands, id);
    assert cands[i] in GroundedFor(cands, id);
  }

  lemma {:induction false} ContestedCount(cands: seq<Interpretation>, req: Requirement)
    ensures |GroundedFor(cands, req.id)| > 1 <==> Contested(cands, req)
  {
    GroundedCount(cands, req.id);
    if Contested(cands, req) {
      var i, j :| 0 <= i < j < |cands| && Proven(cands[i], req) && Proven(cands[j], req);
      assert Grounds(cands[i], req.id) && Grounds(cands[j], req.id);
    }
    if |GroundedFor(cands, req.id)| > 1 {
      var i :| 0 <= i < |cands| && Grounds(cands[i], req.id);
      assert !OnlyGround(cands, req.id, i);
      var j :| 0 <= j < |cands| && j != i && Grounds(cands[j], req.id);
      assert Proven(cands[i], req) && Proven(cands[j], req);
    }
  }

  lemma {:induction false} ReadingInFields(cands: seq<Interpretation>, req: Requirement)
    ensures var r := ReadingOf(cands, req.id);
            && (r.Unique? <==> Settled(cands, req))
            && (r.Conflicting? <==> Contested(cands, req))
            && (r.Unique? ==> CarriesSole(ObligationOf(req, r), req, cands))
  {
    ReadExactly(cands, req.id);
    ContestedCount(cands, req);
    forall i: nat { OnlyProvenExactly(cands, req, i); }
    if i: nat :| OnlyGround(cands, req.id, i) {
      SoleIsRead(cands, req.id, i);
      assert Sole(cands, req, cands[i]);
      assert Carries(ObligationOf(req, ReadingOf(cands, req.id)), req, cands[i]);
    }
  }

  lemma {:induction false} CarryOneMore(
      obls: seq<Obligation>, o: Obligation, settled: seq<Requirement>, req: Requirement, cands: seq<Interpretation>)
    requires CarryAll(obls, settled, cands) && CarriesSole(o, req, cands)
    ensures CarryAll(obls + [o], settled + [req], cands)
  {
  }

  lemma {:induction false} MissOneMore(
      deficits: seq<Deficit>, d: Deficit, open: seq<Requirement>, req: Requirement, cands: seq<Interpretation>)
    requires MissAll(deficits, open, cands) && Misses(d, req, cands)
    ensures MissAll(deficits + [d], open + [req], cands)
  {
  }

  lemma {:induction false} SortedOut(reqs: seq<Requirement>, req: Requirement, cands: seq<Interpretation>)
    ensures var settled, open := SettledOnes(reqs, cands), OpenOnes(reqs, cands);
            && SettledOnes(reqs + [req], cands) == (if Settled(cands, req) then settled + [req] else settled)
            && OpenOnes(reqs + [req], cands) ==
               (if req.blocking && !Settled(cands, req) then open + [req] else open)
  {
    assert (reqs + [req])[..|reqs|] == reqs;
    assert SettledOnes(reqs, cands) + [] == SettledOnes(reqs, cands);
    assert OpenOnes(reqs, cands) + [] == OpenOnes(reqs, cands);
  }

  ghost predicate RendersAs(reqs: seq<Requirement>, cands: seq<Interpretation>, d: Derivation) {
    Renders(reqs, cands, d.obligations, d.deficits)
  }

  lemma {:induction false} RendersOneMore(
      reqs: seq<Requirement>, req: Requirement, cands: seq<Interpretation>, d: Derivation)
    requires RendersAs(reqs, cands, d)
    ensures RendersAs(reqs + [req], cands, DeriveOne(d, req, ReadingOf(cands, req.id)))
  {
    SortedOut(reqs, req, cands);
    ReadingInFields(cands, req);
    var r := ReadingOf(cands, req.id);
    if r.Unique? {
      CarryOneMore(d.obligations, ObligationOf(req, r), SettledOnes(reqs, cands), req, cands);
    } else if req.blocking {
      var kind := if r.Unread? then SemanticBindingDeficit else AmbiguousDeficit;
      MissOneMore(d.deficits, Deficit(kind, "obl_" + req.id), OpenOnes(reqs, cands), req, cands);
    }
  }

  /** Some property of the requirements read so far and of what was derived from them. */
  type Property = (seq<Requirement>, Derivation) -> bool

  ghost predicate Stepwise(read: string -> Reading, good: Property) {
    forall reqs, req: Requirement, d :: good(reqs, d) ==> good(reqs + [req], DeriveOne(d, req, read(req.id)))
  }

  lemma {:induction false} DerivedStepwise(
      reqs: seq<Requirement>, read: string -> Reading, n: nat, good: Property)
    requires n <= |reqs| && good([], Derivation([], [])) && Stepwise(read, good)
    ensures good(reqs[..n], Derive(reqs, read, n))
  {
    if n > 0 {
      DerivedStepwise(reqs, read, n - 1, good);
      assert reqs[..n] == reqs[..n - 1] + [reqs[n - 1]];
    }
  }

  lemma {:induction false} RenderingIsStepwise(cands: seq<Interpretation>, read: string -> Reading, good: Property)
    requires read == Readings(cands) && good == ((reqs, d) => RendersAs(reqs, cands, d))
    ensures Stepwise(read, good)
  {
    forall reqs, req: Requirement, d | good(reqs, d) ensures good(reqs + [req], DeriveOne(d, req, read(req.id))) {
      RendersOneMore(reqs, req, cands, d);
    }
  }

  /** What is derived renders the requirements and the interpretations that ground them. */
  lemma {:induction false} DerivedInFields(reqs: seq<Requirement>, cands: seq<Interpretation>)
    ensures var d := Derive(reqs, Readings(cands), |reqs|); Renders(reqs, cands, d.obligations, d.deficits)
  {
    var good: Property := (rs, d) => RendersAs(rs, cands, d);
    RenderingIsStepwise(cands, Readings(cands), good);
    DerivedStepwise(reqs, Readings(cands), |reqs|, good);
    assert reqs[..|reqs|] == reqs;
  }

  lemma {:induction false} SoleIsOne(cands: seq<Interpretation>, req: Requirement, c: Interpretation)
    requires Sole(cands, req, c)
    ensures forall other :: Sole(cands, req, other) ==> other == c
  {
  }

  /** The obligation that a settled requirement was turned into. */
  lemma {:induction false} RenderedObligation(
      reqs: seq<Requirement>, cands: seq<Interpretation>, req: Requirement, c: Interpretation) returns (k: nat)
    requires req in reqs && Sole(cands, req, c)
    ensures var obls := Derive(reqs, Readings(cands), |reqs|).obligations; k < |obls| && Carries(obls[k], req, c)
  {
    DerivedInFields(reqs, cands);
    var obls, settled := Derive(reqs, Readings(cands), |reqs|).obligations, SettledOnes(reqs, cands);
    assert req in settled;
    k :| 0 <= k < |settled| && settled[k] == req;
    assert CarriesSole(obls[k], req, cands);
    SoleIsOne(cands, req, c);
  }

  method DeriveObligations(reqs: seq<Requirement>, cands: seq<Interpretation>)
      returns (obligations: seq<Obligation>, deficits: seq<Deficit>)
    ensures obligations == Derive(reqs, Readings(cands), |reqs|).obligations
    ensures deficits == Derive(reqs, Readings(cands), |reqs|).deficits
    ensures Renders(reqs, cands, obligations, deficits)
  {
    obligations, deficits := [], [];
    for i := 0 to |reqs|
      invariant Derivation(obligations, deficits) == Derive(reqs, Readings(cands), i)
    {
      var req := reqs[i];
      var reading := Interpret(cands, req.id);
      match reading
      case Conflicting =>
        if req.blocking { deficits := deficits + [Deficit(AmbiguousDeficit, "obl_" + req.id)]; }
      case Unique(_, _, _) =>
        obligations := obligations + [ObligationOf(req, reading)];
      case Unread =>
        if req.blocking { deficits := deficits + [Deficit(SemanticBindingDeficit, "obl_" + req.id)]; }
    }
    DerivedInFields(reqs, cands);
  }

  method Interpret(cands: seq<Interpretation>, id: string) returns (r: Reading)
    ensures r == ReadingOf(cands, id)
  {
    var grounded := [];
    for j := 0 to |cands|
      invariant grounded == GroundedFor(cands[..j], id)
    {
      assert cands[..j + 1][..j] == cands[..j];
      if cands[j].requirement == id && cands[j].proof.Some? { grounded := grounded + [cands[j]]; }
    }
    assert cands[..|cands|] == cands;
    if |grounded| > 1 {
      r := Conflicting;
    } else if |grounded| == 1 {
      r := Unique(grounded[0].contract, grounded[0].blocking, grounded[0].proof.value);
    } else {
      r := Unread;
    }
  }
}
