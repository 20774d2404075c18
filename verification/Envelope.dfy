/** Evidence envelopes: the three constructors, and what survives along the derivations they build. */
module Envelope {
  import opened Common

  datatype Origin = PhysicalObservation | SyntheticFixture | ModelInference | DerivedTransform | DeclaredSpec

  datatype Status = Verified | Inferred | Hypothesis | Unknown | Contradicted

  datatype Disposition =
    | Satisfied | ConditionallySupported | SemanticBindingDeficit | InsufficientEvidence
    | CapabilityDeficit | ExternalAuthorityRequired | Unresolved

  /** An ideal digest of an envelope; neither confidence nor timestamp is digested. */
  datatype Hash = HashOf(payload: string, origin: Origin, status: Status, source: string, disposition: Disposition,
      parents: seq<Hash>)

  datatype Envelope = Envelope(
    payload: string, origin: Origin, status: Status, source: string, disposition: Disposition,
    confidence: real, parents: seq<Hash>)
  {
    function Digest(): Hash { HashOf(payload, origin, status, source, disposition, parents) }
  }

  datatype Error = PrivilegedMinting | InvalidWitness | SemanticLaundering | NoParents

  /** `genuine` stands for a signature that verifies. */
  datatype Witness = Witness(digest: string, scope: string, genuine: bool) {
    predicate Covers(payload: string) { genuine && digest == payload && scope == "EVIDENCE_VERIFICATION" }
  }

  function CreateUnverified(
    payload: string, origin: Origin, status: Status, source: string, disposition: Disposition, confidence: real,
        parents: seq<Hash>)
    : (r: Result<Envelope, Error>)
    ensures r.Ok? <==> status != Verified && origin != PhysicalObservation
    ensures r.Ok? ==> r.value.status == status && r.value.origin == origin && r.value.confidence == confidence
    ensures r.Ok? ==> r.value.parents == parents && r.value.payload == payload
    ensures r.Ok? ==> r.value.source == source && r.value.disposition == disposition
    ensures r.Err? ==> r.error == PrivilegedMinting
  {
    if status == Verified || origin == PhysicalObservation then Err(PrivilegedMinting)
    else Ok(Envelope(payload, origin, status, source, disposition, confidence, parents))
  }

  function MintVerified(
    payload: string, origin: Origin, source: string, seal: Witness, disposition: Disposition, confidence: real,
        parents: seq<Hash>)
    : (r: Result<Envelope, Error>)
    ensures r.Ok? <==> seal.Covers(payload)
    ensures r.Ok? ==> seal.genuine && seal.scope == "EVIDENCE_VERIFICATION" && seal.digest == payload
    ensures r.Ok? ==> r.value.status == Verified && r.value.origin == origin && r.value.payload == payload
    ensures r.Ok? ==> r.value.confidence == confidence && r.value.parents == parents
    ensures r.Ok? ==> r.value.source == source && r.value.disposition == disposition
    ensures r.Err? ==> r.error == InvalidWitness
  {
    if !seal.Covers(payload) then Err(InvalidWitness)
    else Ok(Envelope(payload, origin, Verified, source, disposition, confidence, parents))
  }

  /** What a transformation asks for. */
  datatype Wish = Wish(
    payload: string, source: string, origin: Option<Origin>, status: Option<Status>,
    disposition: Option<Disposition>, confidence: Option<real>, seal: Option<Witness>)

  function LeastConfidence(ps: seq<Envelope>): (m: real)
    requires ps != []
    ensures forall p :: p in ps ==> m <= p.confidence
    ensures exists p :: p in ps && m == p.confidence
  {
    if |ps| == 1 then ps[0].confidence
    else
      var rest := LeastConfidence(ps[1..]);
      assert ps == [ps[0]] + ps[1..];
      if ps[0].confidence <= rest then ps[0].confidence else rest
  }

  function Or<T>(wish: Option<T>, default: T): T {
    if wish.Some? then wish.value else default
  }

  predicate AnyWith(ps: seq<Envelope>, status: Status) {
    exists i :: 0 <= i < |ps| && ps[i].status == status
  }

  function Digests(ps: seq<Envelope>): seq<Hash> {
    seq(|ps|, i requires 0 <= i < |ps| => ps[i].Digest())
  }

  function Transform(ps: seq<Envelope>, w: Wish): Result<Envelope, Error> {
    if ps == [] then Err(NoParents)
    else
      var floor := LeastConfidence(ps);
      var wished := Or(w.confidence, floor);
      var confidence := if w.seal.None? && wished > floor then floor else wished;
      var origin := Or(w.origin, DerivedTransform);
      var contradicted := AnyWith(ps, Contradicted);
      var status := if contradicted then Contradicted else Or(w.status, ps[0].status);
      var disposition := if contradicted then Unresolved else Or(w.disposition, ps[0].disposition);
      if (exists i :: 0 <= i < |ps| && ps[i].origin == SyntheticFixture)
          && origin == PhysicalObservation then Err(SemanticLaundering)
      else if (AnyWith(ps, Inferred) || AnyWith(ps, Hypothesis) || AnyWith(ps, Unknown) || ps[0].status != Verified)
          && status == Verified
      then
        if w.seal.None? then Err(SemanticLaundering)
        else if !w.seal.value.Covers(w.payload) then Err(InvalidWitness)
        else Ok(Envelope(w.payload, origin, status, w.source, disposition, confidence, Digests(ps)))
      else Ok(Envelope(w.payload, origin, status, w.source, disposition, confidence, Digests(ps)))
  }

  // ---- A transformation, field by field ----

  predicate SomeStatus(ps: seq<Envelope>, among: set<Status>) {
    exists i :: 0 <= i < |ps| && ps[i].status in among
  }

  /** What a transformation is to be called, before anything is refused. */
  ghost predicate Called(ps: seq<Envelope>, w: Wish, e: Envelope)
    requires |ps| > 0
  {
    && e.payload == w.payload && e.source == w.source
    && e.origin == (match w.origin case Some(origin) => origin case None => DerivedTransform)
    && (if SomeStatus(ps, {Contradicted}) then e.status == Contradicted && e.disposition == Unresolved
        else
          && e.status == (match w.status case Some(status) => status case None => ps[0].status)
          && e.disposition == (match w.disposition case Some(d) => d case None => ps[0].disposition))
    && |e.parents| == |ps|
    && forall i :: 0 <= i < |ps| ==>
         e.parents[i] ==
         HashOf(ps[i].payload, ps[i].origin, ps[i].status, ps[i].source, ps[i].disposition, ps[i].parents)
  }

  /** The confidence wished for, or the least among the parents'; without a witness argument never more than that. */
  ghost predicate Trusted(ps: seq<Envelope>, w: Wish, confidence: real) {
    exists k :: 0 <= k < |ps| && (forall i :: 0 <= i < |ps| ==> ps[k].confidence <= ps[i].confidence) &&
      confidence == match w.confidence
                    case None => ps[k].confidence
                    case Some(c) => if w.seal.None? && c > ps[k].confidence then ps[k].confidence else c
  }

  /** A call for VERIFIED that a witness has to back: some parent is unproven, or the first is not verified itself. */
  predicate Promotes(ps: seq<Envelope>, e: Envelope)
    requires |ps| > 0
  {
    e.status == Verified &&
    (ps[0].status != Verified || SomeStatus(ps, {Inferred, Hypothesis, Unknown}))
  }

  /** How a transformation ends: refused for laundering or for its witness, or the envelope it is to be called. */
  ghost predicate TransformEnds(ps: seq<Envelope>, w: Wish, e: Envelope, r: Result<Envelope, Error>)
    requires |ps| > 0
  {
    if e.origin == PhysicalObservation && (exists i :: 0 <= i < |ps| && ps[i].origin == SyntheticFixture)
    then r == Err(SemanticLaundering)
    else if Promotes(ps, e) && w.seal.None? then r == Err(SemanticLaundering)
    else if Promotes(ps, e) && !(w.seal.value.genuine && w.seal.value.digest == w.payload &&
                                 w.seal.value.scope == "EVIDENCE_VERIFICATION")
    then r == Err(InvalidWitness)
    else r == Ok(e)
  }

  /** What a transformation would be without its checks. */
  function Drafted(ps: seq<Envelope>, w: Wish): Envelope
    requires |ps| > 0
  {
    var floor := LeastConfidence(ps);
    var wished := Or(w.confidence, floor);
    var contradicted := AnyWith(ps, Contradicted);
    Envelope(w.payload, Or(w.origin, DerivedTransform),
             if contradicted then Contradicted else Or(w.status, ps[0].status), w.source,
             if contradicted then Unresolved else Or(w.disposition, ps[0].disposition),
             if w.seal.None? && wished > floor then floor else wished, Digests(ps))
  }

  lemma {:induction false} DraftIsCalled(ps: seq<Envelope>, w: Wish)
    requires |ps| > 0
    ensures Called(ps, w, Drafted(ps, w)) && Trusted(ps, w, Drafted(ps, w).confidence)
  {
    assert AnyWith(ps, Contradicted) <==> SomeStatus(ps, {Contradicted});
    var k := LeastParent(ps);
  }

  lemma {:induction false} LeastParent(ps: seq<Envelope>) returns (k: nat)
    requires |ps| > 0
    ensures k < |ps| && ps[k].confidence == LeastConfidence(ps)
    ensures forall i :: 0 <= i < |ps| ==> ps[k].confidence <= ps[i].confidence
  {
    var m := LeastConfidence(ps);
    var least :| least in ps && m == least.confidence;
    k :| 0 <= k < |ps| && ps[k] == least;
    forall i | 0 <= i < |ps| ensures LeastConfidence(ps) <= ps[i].confidence { assert ps[i] in ps; }
  }

  /** Every transformation is refused, or called and trusted, as its parents and its wish say. */
  lemma {:induction false} TransformExactly(ps: seq<Envelope>, w: Wish)
    ensures ps == [] ==> Transform(ps, w) == Err(NoParents)
    ensures ps != [] ==>
              exists e :: Called(ps, w, e) && Trusted(ps, w, e.confidence) && TransformEnds(ps, w, e, Transform(ps, w))
  {
    if ps != [] {
      DraftIsCalled(ps, w);
      UnprovenExactly(ps);
      assert TransformEnds(ps, w, Drafted(ps, w), Transform(ps, w));
    }
  }

  lemma {:induction false} UnprovenExactly(ps: seq<Envelope>)
    ensures SomeStatus(ps, {Inferred, Hypothesis, Unknown}) <==>
            AnyWith(ps, Inferred) || AnyWith(ps, Hypothesis) || AnyWith(ps, Unknown)
  {
  }

  // ---- Derivations ----

  /** How an envelope came about. */
  datatype Derivation =
    | Created(payload: string, origin: Origin, status: Status, source: string, disposition: Disposition,
        confidence: real, hashes: seq<Hash>)
    | Minted(payload: string, origin: Origin, source: string, seal: Witness, disposition: Disposition,
        confidence: real, hashes: seq<Hash>)
    | Transformed(from: seq<Derivation>, wish: Wish)

  function Build(d: Derivation): Result<Envelope, Error>
    decreases d, 1, 0
  {
    match d
    case Created(payload, origin, status, source, disposition, confidence, hashes) =>
      CreateUnverified(payload, origin, status, source, disposition, confidence, hashes)
    case Minted(payload, origin, source, seal, disposition, confidence, hashes) =>
      MintVerified(payload, origin, source, seal, disposition, confidence, hashes)
    case Transformed(from, wish) =>
      match Parents(d, |from|)
      case Err(error) => Err(error)
      case Ok(ps) => Transform(ps, wish)
  }

  function Parents(d: Derivation, n: nat): (r: Result<seq<Envelope>, Error>)
    requires d.Transformed? && n <= |d.from|
    ensures r.Ok? ==> |r.value| == n && forall i :: 0 <= i < n ==> Build(d.from[i]) == Ok(r.value[i])
    decreases d, 0, n
  {
    if n == 0 then Ok([])
    else match Parents(d, n - 1)
      case Err(error) => Err(error)
      case Ok(ps) =>
        match Build(d.from[n - 1])
        case Err(error) => Err(error)
        case Ok(e) => Ok(ps + [e])
  }

  predicate Stands(d: Derivation, status: Status) {
    Build(d).Ok? && Build(d).value.status == status
  }

  /** A line of descent, youngest first: each derivation was transformed from the next, among others. */
  ghost predicate Line(ds: seq<Derivation>) {
    && ds != []
    && forall i, j :: 0 <= i && j == i + 1 && j < |ds| ==> Descends(ds[i], ds[j])
  }

  ghost predicate Descends(d: Derivation, parent: Derivation) {
    d.Transformed? && parent in d.from
  }

  lemma {:induction false} LineTail(ds: seq<Derivation>)
    requires Line(ds) && |ds| > 1
    ensures Line(ds[1..]) && ds[0].Transformed? && ds[1] in ds[0].from && ds[1..][0] == ds[1]
  {
    assert Descends(ds[0], ds[1]);
    forall i, j | 0 <= i && j == i + 1 && j < |ds[1..]| ensures Descends(ds[1..][i], ds[1..][j]) {
      assert ds[1..][i] == ds[i + 1] && ds[1..][j] == ds[j + 1];
      assert Descends(ds[i + 1], ds[j + 1]);
    }
  }

  /** A transformed envelope was built from its parents' envelopes. */
  lemma {:induction false} ParentIsBuilt(d: Derivation, parent: Derivation) returns (ps: seq<Envelope>, k: nat)
    requires d.Transformed? && Build(d).Ok? && parent in d.from
    ensures Build(d) == Transform(ps, d.wish) && |ps| == |d.from| && k < |ps|
    ensures Build(parent) == Ok(ps[k])
    ensures forall i :: 0 <= i < |ps| ==> Build(d.from[i]) == Ok(ps[i])
  {
    ps := Parents(d, |d.from|).value;
    k :| 0 <= k < |d.from| && d.from[k] == parent;
  }

  /** Everything descended from a contradicted envelope is contradicted, however it was transformed. */
  lemma {:induction false} ContradictionIsInherited(ds: seq<Derivation>)
    requires Line(ds) && Build(ds[0]).Ok? && Stands(ds[|ds| - 1], Contradicted)
    ensures Stands(ds[0], Contradicted)
    ensures |ds| > 1 ==> Build(ds[0]).value.disposition == Unresolved
    decreases |ds|
  {
    if |ds| > 1 {
      LineTail(ds);
      var ps, k := ParentIsBuilt(ds[0], ds[1]);
      ContradictionIsInherited(ds[1..]);
      assert ps[k].status == Contradicted;
    }
  }

  /** A valid witness vouched for this very payload. */
  predicate Witnessed(d: Derivation) {
    (d.Minted? && d.seal.Covers(d.payload))
    || (d.Transformed? && d.wish.seal.Some? && d.wish.seal.value.Covers(d.wish.payload))
  }

  /** A verified envelope was vouched for itself, or all its parents are verified. */
  lemma {:induction false} VerifiedOneStep(d: Derivation)
    requires Stands(d, Verified)
    ensures Witnessed(d) || (d.Transformed? && d.from != [] && forall i :: 0 <= i < |d.from| ==>
            Stands(d.from[i], Verified))
  {
    if d.Transformed? && !Witnessed(d) {
      var ps := Parents(d, |d.from|).value;
      forall i | 0 <= i < |ps| ensures ps[i].status == Verified {
        assert ps[i].status != Verified ==> AnyWith(ps, ps[i].status);
      }
    }
  }

  /** So every line of descent back from a verified envelope to its source meets a valid witness before it leaves
      verified. */
  lemma {:induction false} VerifiedReachesWitness(ds: seq<Derivation>) returns (k: nat)
    requires Line(ds) && Stands(ds[0], Verified) && !ds[|ds| - 1].Transformed?
    ensures k < |ds| && Witnessed(ds[k]) && forall i :: 0 <= i <= k ==> Stands(ds[i], Verified)
    decreases |ds|
  {
    VerifiedOneStep(ds[0]);
    if Witnessed(ds[0]) {
      k := 0;
    } else {
      LineTail(ds);
      var i :| 0 <= i < |ds[0].from| && ds[0].from[i] == ds[1];
      var j := VerifiedReachesWitness(ds[1..]);
      k := j + 1;
      assert forall i :: 1 <= i <= k ==> ds[i] == ds[1..][i - 1];
    }
  }

  // ---- Confidence ----

  /** Nothing lifts the confidence over the parents': no witness argument, or no wish beyond the least of them. */
  predicate ModestWish(ps: seq<Envelope>, w: Wish)
    requires ps != []
  {
    w.seal.None? || Or(w.confidence, LeastConfidence(ps)) <= LeastConfidence(ps)
  }

  /** A transformation keeps the bound on confidence exactly when its wish is modest, witness or not. */
  lemma {:induction false} BoundKeptExactly(ps: seq<Envelope>, w: Wish)
    requires Transform(ps, w).Ok?
    ensures (forall i :: 0 <= i < |ps| ==> Transform(ps, w).value.confidence <= ps[i].confidence) <==> ModestWish(ps, w)
  {
    var p :| p in ps && LeastConfidence(ps) == p.confidence;
    var i :| 0 <= i < |ps| && ps[i] == p;
    forall i | 0 <= i < |ps| ensures LeastConfidence(ps) <= ps[i].confidence { assert ps[i] in ps; }
  }

  function Confidence(d: Derivation): real
    requires Build(d).Ok?
  {
    Build(d).value.confidence
  }

  /** The wish of a transformed derivation, against the envelopes it was built from. */
  ghost predicate Modest(d: Derivation)
    requires Build(d).Ok?
  {
    d.Transformed? ==> ModestWish(Parents(d, |d.from|).value, d.wish)
  }

  lemma {:induction false} ModestExactly(d: Derivation)
    requires d.Transformed? && Build(d).Ok?
    ensures forall p :: p in d.from ==> Build(p).Ok?
    ensures (forall p :: p in d.from ==> Confidence(d) <= Confidence(p)) <==> Modest(d)
  {
    var ps := Parents(d, |d.from|).value;
    BoundKeptExactly(ps, d.wish);
    if forall p :: p in d.from ==> Confidence(d) <= Confidence(p) {
      forall i | 0 <= i < |ps| ensures Confidence(d) <= ps[i].confidence { assert d.from[i] in d.from; }
    }
  }

  lemma {:induction false} LineBuilds(ds: seq<Derivation>)
    requires Line(ds) && Build(ds[0]).Ok?
    ensures forall i :: 0 <= i < |ds| ==> Build(ds[i]).Ok?
    decreases |ds|
  {
    if |ds| > 1 {
      LineTail(ds);
      ModestExactly(ds[0]);
      LineBuilds(ds[1..]);
      assert forall i :: 1 <= i < |ds| ==> ds[i] == ds[1..][i - 1];
    }
  }

  /** Along a line of modest derivations confidence never exceeds that of any ancestor. */
  lemma {:induction false} ConfidenceIsBounded(ds: seq<Derivation>)
    requires Line(ds) && Build(ds[0]).Ok?
    requires forall i :: 0 <= i < |ds| && Build(ds[i]).Ok? ==> Modest(ds[i])
    ensures Build(ds[|ds| - 1]).Ok? && Confidence(ds[0]) <= Confidence(ds[|ds| - 1])
    decreases |ds|
  {
    if |ds| > 1 {
      LineTail(ds);
      ModestExactly(ds[0]);
      assert forall i :: 0 <= i < |ds[1..]| ==> ds[1..][i] == ds[i + 1];
      ConfidenceIsBounded(ds[1..]);
    }
  }

  /** On this line confidence is bounded by the oldest member's. */
  ghost predicate Bounded(ds: seq<Derivation>)
    requires ds != []
  {
    Build(ds[0]).Ok? && Build(ds[|ds| - 1]).Ok? && Confidence(ds[0]) <= Confidence(ds[|ds| - 1])
  }

  /** Everything a derivation descends from, itself included. */
  ghost predicate Below(d: Derivation, t: Derivation) {
    exists ds :: Line(ds) && ds[0] == d && ds[|ds| - 1] == t
  }

  lemma {:induction false} LineGrows(ds: seq<Derivation>, p: Derivation)
    requires Line(ds) && Descends(ds[|ds| - 1], p)
    ensures Line(ds + [p])
  {
    var all := ds + [p];
    forall i, j | 0 <= i && j == i + 1 && j < |all| ensures Descends(all[i], all[j]) {
      if j < |ds| { assert Descends(ds[i], ds[j]); }
    }
  }

  lemma {:induction false} BelowMember(ds: seq<Derivation>, i: nat)
    requires Line(ds) && i < |ds|
    ensures Below(ds[0], ds[i])
  {
    var part := ds[..i + 1];
    forall a, b | 0 <= a && b == a + 1 && b < |part| ensures Descends(part[a], part[b]) {
      assert Descends(ds[a], ds[b]);
    }
    assert part[0] == ds[0] && part[|part| - 1] == ds[i];
  }

  lemma {:induction false} BelowBuilds(d: Derivation, t: Derivation)
    requires Build(d).Ok? && Below(d, t)
    ensures Build(t).Ok?
  {
    var ds :| Line(ds) && ds[0] == d && ds[|ds| - 1] == t;
    LineBuilds(ds);
  }

  /** Confidence is bounded along every line that starts in t. */
  ghost predicate BoundedBelow(t: Derivation) {
    forall ds :: Line(ds) && ds[0] == t ==> Bounded(ds)
  }

  lemma {:induction false} BelowTransitive(d: Derivation, t: Derivation, u: Derivation)
    requires Below(d, t) && Below(t, u)
    ensures Below(d, u)
  {
    var xs :| Line(xs) && xs[0] == d && xs[|xs| - 1] == t;
    var ys :| Line(ys) && ys[0] == t && ys[|ys| - 1] == u;
    var all := xs + ys[1..];
    forall i, j | 0 <= i && j == i + 1 && j < |all| ensures Descends(all[i], all[j]) {
      if j < |xs| { assert Descends(xs[i], xs[j]); } else { assert Descends(ys[i - |xs| + 1], ys[j - |xs| + 1]); }
    }
    assert all[0] == d && all[|all| - 1] == u;
  }

  lemma {:induction false} BoundedIsModest(t: Derivation)
    requires Build(t).Ok? && BoundedBelow(t)
    ensures Modest(t)
  {
    if t.Transformed? {
      ModestExactly(t);
      forall p | p in t.from ensures Confidence(t) <= Confidence(p) {
        assert Line([t]);
        LineGrows([t], p);
        assert Bounded([t] + [p]);
      }
    }
  }

  lemma {:induction false} ModestIsBounded(t: Derivation)
    requires Build(t).Ok? && forall u :: Below(t, u) && Build(u).Ok? ==> Modest(u)
    ensures BoundedBelow(t)
  {
    forall ds | Line(ds) && ds[0] == t ensures Bounded(ds) {
      forall i | 0 <= i < |ds| && Build(ds[i]).Ok? ensures Modest(ds[i]) { BelowMember(ds, i); }
      ConfidenceIsBounded(ds);
    }
  }

  /**
   In the whole ancestry of an envelope confidence is bounded along every line exactly when no transformation
   in it both had a witness argument and wished for more than its least confident parent had.
   */
  lemma {:induction false} ConfidenceBoundedExactly(d: Derivation)
    requires Build(d).Ok?
    ensures (forall t :: Below(d, t) ==> BoundedBelow(t)) <==> (forall t :: Below(d, t) && Build(t).Ok? ==> Modest(t))
  {
    forall t | Below(d, t) ensures Build(t).Ok? { BelowBuilds(d, t); }
    if forall t :: Below(d, t) ==> BoundedBelow(t) {
      forall t | Below(d, t) ensures Modest(t) { BoundedIsModest(t); }
    }
    if forall t :: Below(d, t) && Build(t).Ok? ==> Modest(t) {
      forall t | Below(d, t) ensures BoundedBelow(t) {
        forall u | Below(t, u) ensures Below(d, u) { BelowTransitive(d, t, u); }
        ModestIsBounded(t);
      }
    }
  }

  /** A witness argument lifts the bound even if it verifies nothing, as long as nothing is promoted. */
  lemma {:induction false} InvalidWitnessLiftsConfidence(
      ps: seq<Envelope>, bad: Witness, payload: string, source: string, confidence: real)
    requires ps != []
    ensures var e := Transform(ps, Wish(payload, source, None, Some(Hypothesis), None, Some(confidence), Some(bad)));
            e.Ok? && e.value.confidence == confidence
  {
  }

  // ---- Origin ----

  /** No direct transformation turns a synthetic fixture into a physical observation. */
  lemma {:induction false} PhysicalHasNoSyntheticParent(d: Derivation, parent: Derivation)
    requires d.Transformed? && Build(d).Ok? && parent in d.from && Build(d).value.origin == PhysicalObservation
    ensures Build(parent).Ok? && Build(parent).value.origin != SyntheticFixture
  {
    var ps, k := ParentIsBuilt(d, parent);
    PhysicalFromNonSynthetic(ps, d.wish, k);
  }

  lemma {:induction false} PhysicalFromNonSynthetic(ps: seq<Envelope>, w: Wish, k: nat)
    requires k < |ps| && Transform(ps, w).Ok? && Transform(ps, w).value.origin == PhysicalObservation
    ensures ps[k].origin != SyntheticFixture
  {
    assert Or(w.origin, DerivedTransform) == PhysicalObservation;
    assert !(exists i :: 0 <= i < |ps| && ps[i].origin == SyntheticFixture);
  }

  /** One transformation can make a physical observation exactly of parents none of which is synthetic. */
  lemma {:induction false} PhysicalReachableExactly(ps: seq<Envelope>)
    ensures (exists w :: Transform(ps, w).Ok? && Transform(ps, w).value.origin == PhysicalObservation) <==>
            ps != [] && forall i :: 0 <= i < |ps| ==> ps[i].origin != SyntheticFixture
  {
    if ps != [] && forall i :: 0 <= i < |ps| ==> ps[i].origin != SyntheticFixture {
      var w := Wish("", "", Some(PhysicalObservation), Some(Hypothesis), None, None, None);
      assert Transform(ps, w).Ok? && Transform(ps, w).value.origin == PhysicalObservation;
    }
    if w :| Transform(ps, w).Ok? && Transform(ps, w).value.origin == PhysicalObservation {
      forall i | 0 <= i < |ps| ensures ps[i].origin != SyntheticFixture { PhysicalFromNonSynthetic(ps, w, i); }
    }
  }

  /** Two transformations do it from any source at all: the first forgets the origin. */
  lemma {:induction false} TwoStepsReachPhysical(d: Derivation, payload: string, source: string)
    requires Build(d).Ok?
    ensures var w := Wish(payload, source, None, Some(Hypothesis), None, None, None);
            var e := Transformed([Transformed([d], w)], w.(origin := Some(PhysicalObservation)));
            Build(e).Ok? && Build(e).value.origin == PhysicalObservation
  {
    var w := Wish(payload, source, None, Some(Hypothesis), None, None, None);
    SingleParent(d, w);
    SingleParent(Transformed([d], w), w.(origin := Some(PhysicalObservation)));
  }

  lemma {:induction false} SingleParent(d: Derivation, w: Wish)
    requires Build(d).Ok?
    ensures Build(Transformed([d], w)) == Transform([Build(d).value], w)
  {
    var t := Transformed([d], w);
    assert Parents(t, 0) == Ok([]);
    assert t.from[0] == d;
    assert Parents(t, 1) == Ok([] + [Build(d).value]);
    assert [] + [Build(d).value] == [Build(d).value];
  }

  // ---- What the constructors do not protect ----

  /** Parent hashes handed to the creating constructors are not looked at: naming a contradicted parent changes
      nothing. */
  lemma {:induction false} CreatedIgnoresItsParents(bad: Envelope, payload: string, source: string, w: Wish)
    requires bad.status == Contradicted && w.status.None?
    ensures var e := CreateUnverified(payload, DeclaredSpec, Hypothesis, source, Unresolved, 1.0, [bad.Digest()]);
            && e.Ok? && bad.Digest() in e.value.parents && e.value.status == Hypothesis
            && (Transform([e.value], w).Ok? ==> Transform([e.value], w).value.status == Hypothesis)
  {
  }
}
