/** The capability registry: contract matching and the deterministic choice of one capability. */
module Registry {
  import opened Common
  import opened Substrate

  ghost predicate DistinctCapabilities(caps: seq<Capability>) {
    forall i, j :: 0 <= i < j < |caps| ==> caps[i].id != caps[j].id
  }

  function Lookup(caps: seq<Capability>, id: string): (r: Option<Capability>)
    ensures r.Some? ==> r.value in caps && r.value.id == id
    ensures r.None? ==> forall c :: c in caps ==> c.id != id
  {
    if caps == [] then None
    else if caps[|caps| - 1].id == id then Some(caps[|caps| - 1])
    else Lookup(caps[..|caps| - 1], id)
  }

  lemma {:induction false} LookupMember(caps: seq<Capability>, c: Capability)
    requires DistinctCapabilities(caps) && c in caps
    ensures Lookup(caps, c.id) == Some(c)
  {
    var n := |caps| - 1;
    if c != caps[n] {
      var i :| 0 <= i < |caps| && caps[i] == c;
      assert c == caps[..n][i];
      LookupMember(caps[..n], c);
    }
  }

  /** Registered under this id, of an executable kind and lifecycle. */
  ghost predicate Executable(caps: seq<Capability>, id: string, c: Capability) {
    && c in caps && c.id == id && c.kind in {RealPhysicalAdapter, VerifiedExternalAdapter}
    && c.lifecycle in {VerifiedForTask, ProvisionallyAvailable, ReuseVerified, Promoted}
  }

  lemma {:induction false} ExecutableExactly(caps: seq<Capability>, id: string, c: Capability)
    requires DistinctCapabilities(caps)
    ensures Executable(caps, id, c) <==> Lookup(caps, id) == Some(c) && c.Authorized()
  {
    if c in caps { LookupMember(caps, c); }
  }

  // ---- Matching ----

  predicate SuppliesOutputs(c: Capability, o: Obligation) {
    forall k :: k in o.outputs ==> k in c.outputs
  }

  /** find_capabilities_matching_contracts: an empty requirement is not checked. */
  predicate StrictMatch(c: Capability, o: Obligation) {
    && c.Authorized()
    && SuppliesOutputs(c, o)
    && (o.inputs != [] ==> forall k :: k in c.inputs ==> k in o.inputs)
    && (o.effect != "" && c.effect != "" ==> c.effect == o.effect)
    && (o.authorityNeeds != [] ==> forall a :: a in c.authority ==> a in o.authorityNeeds)
  }

  predicate PerformsEffect(c: Capability, effect: string) {
    c.effect == effect || exists i :: 0 <= i < |c.operators| && OperatorName(c.operators[i]) == effect
  }

  /** The second attempt, by effect type or operator name and outputs only. */
  predicate LooseMatch(c: Capability, o: Obligation) {
    c.Authorized() && PerformsEffect(c, o.effect) && SuppliesOutputs(c, o)
  }

  ghost function Filter(caps: seq<Capability>, p: Capability -> bool): (r: seq<Capability>)
    ensures forall c :: c in r <==> c in caps && p(c)
  {
    if caps == [] then []
    else
      var n := |caps| - 1;
      assert caps == caps[..n] + [caps[n]];
      if p(caps[n]) then Filter(caps[..n], p) + [caps[n]] else Filter(caps[..n], p)
  }

  lemma {:induction false} FilterKeepsIdsDistinct(caps: seq<Capability>, p: Capability -> bool)
    requires DistinctCapabilities(caps)
    ensures DistinctCapabilities(Filter(caps, p))
  {
    if caps != [] {
      var n := |caps| - 1;
      FilterKeepsIdsDistinct(caps[..n], p);
      forall c | c in caps[..n] ensures c.id != caps[n].id {
        var i :| 0 <= i < n && caps[i] == c;
      }
    }
  }

  ghost function Candidates(caps: seq<Capability>, o: Obligation): (r: seq<Capability>)
    ensures forall c :: c in r ==> c in caps && c.Authorized() && SuppliesOutputs(c, o)
  {
    var strict := Filter(caps, c => StrictMatch(c, o));
    if strict == [] && o.effect != "" then Filter(caps, c => LooseMatch(c, o)) else strict
  }

  /** The candidates are the strict matches, or, when there are none and an effect is named, the loose ones. */
  lemma {:induction false} CandidatesExactly(caps: seq<Capability>, o: Obligation, c: Capability)
    ensures c in Candidates(caps, o) <==>
            c in caps &&
            if exists d :: d in caps && StrictMatch(d, o) then StrictMatch(c, o) else o.effect != "" && LooseMatch(c, o)
  {
    var strict := Filter(caps, c => StrictMatch(c, o));
    if strict != [] { assert strict[0] in strict; }
  }

  /** Registered, of an executable kind and lifecycle, and with every output asked for. */
  ghost predicate Serves(caps: seq<Capability>, o: Obligation, c: Capability) {
    && c in caps && c.kind in {RealPhysicalAdapter, VerifiedExternalAdapter}
    && c.lifecycle in {VerifiedForTask, ProvisionallyAvailable, ReuseVerified, Promoted}
    && (forall k :: 0 <= k < |o.outputs| ==> o.outputs[k] in c.outputs)
  }

  /** It wants no other inputs, claims no other effect, asks for no other authority; what is not named binds nothing. */
  predicate KeepsWithin(o: Obligation, c: Capability) {
    && (o.inputs == [] || forall k :: 0 <= k < |c.inputs| ==> c.inputs[k] in o.inputs)
    && (o.effect == "" || c.effect == "" || c.effect == o.effect)
    && (o.authorityNeeds == [] || forall k :: 0 <= k < |c.authority| ==> c.authority[k] in o.authorityNeeds)
  }

  /** It names the effect, or one of its operators bears its name. */
  predicate NamesEffect(o: Obligation, c: Capability) {
    o.effect == c.effect || exists op :: op in c.operators && OperatorName(op) == o.effect
  }

  /**
   A candidate serves the obligation; it keeps within what is asked, or, when nobody who serves does, it names the
   effect that is asked.
   */
  lemma {:induction false} CandidatesInFields(caps: seq<Capability>, o: Obligation, c: Capability)
    ensures c in Candidates(caps, o) <==>
            && Serves(caps, o, c)
            && if exists d :: Serves(caps, o, d) && KeepsWithin(o, d) then KeepsWithin(o, c)
               else o.effect != "" && NamesEffect(o, c)
  {
    CandidatesExactly(caps, o, c);
    forall d | d in caps ensures StrictMatch(d, o) <==> Serves(caps, o, d) && KeepsWithin(o, d) {
      MatchInFields(caps, o, d);
    }
    if c in caps { MatchInFields(caps, o, c); }
  }

  lemma {:induction false} MatchInFields(caps: seq<Capability>, o: Obligation, c: Capability)
    requires c in caps
    ensures StrictMatch(c, o) <==> Serves(caps, o, c) && KeepsWithin(o, c)
    ensures LooseMatch(c, o) <==> Serves(caps, o, c) && NamesEffect(o, c)
  {
    assert SuppliesOutputs(c, o) <==> forall k :: 0 <= k < |o.outputs| ==> o.outputs[k] in c.outputs;
    assert (forall k :: k in c.inputs ==> k in o.inputs) <==>
           forall k :: 0 <= k < |c.inputs| ==> c.inputs[k] in o.inputs;
    assert (forall a :: a in c.authority ==> a in o.authorityNeeds) <==>
           forall k :: 0 <= k < |c.authority| ==> c.authority[k] in o.authorityNeeds;
  }

  // ---- Selection ----

  function LifecycleRank(l: Lifecycle): int {
    match l
    case Promoted => 4
    case ReuseVerified => 3
    case ProvisionallyAvailable => 2
    case VerifiedForTask => 1
    case IsolatedTested => 0
    case SyntacticallyValid => -1
    case Candidate => -2
  }

  predicate StringLess(a: string, b: string) {
    if b == "" then false
    else if a == "" then true
    else a[0] < b[0] || (a[0] == b[0] && StringLess(a[1..], b[1..]))
  }

  lemma {:induction false} StringTotal(a: string, b: string)
    ensures StringLess(a, b) || a == b || StringLess(b, a)
    ensures !(StringLess(a, b) && StringLess(b, a)) && !StringLess(a, a)
    decreases |a|
  {
    if a != "" {
      StringTotal(a[1..], a[1..]);
      if b != "" {
        StringTotal(a[1..], b[1..]);
        assert a == [a[0]] + a[1..] && b == [b[0]] + b[1..];
      }
    }
  }

  lemma {:induction false} StringTransitive(a: string, b: string, c: string)
    requires StringLess(a, b) && StringLess(b, c)
    ensures StringLess(a, c)
    decreases |a|
  {
    if a != "" && a[0] == b[0] && b[0] == c[0] { StringTransitive(a[1..], b[1..], c[1..]); }
  }

  function EffectRank(c: Capability, effect: string): int {
    if effect != "" && c.effect == effect then 1 else 0
  }

  function VerifierRank(c: Capability): int {
    if c.verifier.Some? then 1 else 0
  }

  /** The order of the sort key: effect match, lifecycle, verifier, then capability id. */
  predicate Below(a: Capability, b: Capability, effect: string) {
    var (e, e') := (EffectRank(a, effect), EffectRank(b, effect));
    var (l, l') := (LifecycleRank(a.lifecycle), LifecycleRank(b.lifecycle));
    var (v, v') := (VerifierRank(a), VerifierRank(b));
    e < e' || (e == e' && (l < l' || (l == l' && (v < v' || (v == v' && StringLess(a.id, b.id))))))
  }

  lemma {:induction false} BelowIsTotal(a: Capability, b: Capability, effect: string)
    ensures a.id != b.id ==> Below(a, b, effect) || Below(b, a, effect)
    ensures !(Below(a, b, effect) && Below(b, a, effect)) && !Below(a, a, effect)
  {
    StringTotal(a.id, b.id);
    StringTotal(a.id, a.id);
  }

  lemma {:induction false} BelowIsTransitive(a: Capability, b: Capability, c: Capability, effect: string)
    requires Below(a, b, effect) && Below(b, c, effect)
    ensures Below(a, c, effect)
  {
    if StringLess(a.id, b.id) && StringLess(b.id, c.id) { StringTransitive(a.id, b.id, c.id); }
  }

  /** The first element of the descending stable sort by key. */
  function SelectBest(cands: seq<Capability>, effect: string): (best: Capability)
    requires cands != []
    ensures best in cands
  {
    var n := |cands| - 1;
    if n == 0 then cands[0]
    else
      var best := SelectBest(cands[..n], effect);
      if Below(best, cands[n], effect) then cands[n] else best
  }

  /** Replacing a choice by a better one leaves nothing above it that was not above it before. */
  lemma {:induction false} BetterChoiceKeeps(best: Capability, last: Capability, c: Capability, effect: string)
    requires c == last || !Below(best, c, effect)
    ensures !Below(if Below(best, last, effect) then last else best, c, effect)
  {
    BelowIsTotal(last, last, effect);
    if Below(best, last, effect) && Below(last, c, effect) { BelowIsTransitive(best, last, c, effect); }
  }

  lemma {:induction false} SelectedIsMaximum(cands: seq<Capability>, effect: string, k: nat)
    requires k < |cands|
    ensures !Below(SelectBest(cands, effect), cands[k], effect)
    decreases |cands|
  {
    var n := |cands| - 1;
    if n == 0 {
      BelowIsTotal(cands[0], cands[0], effect);
    } else {
      if k < n { SelectedIsMaximum(cands[..n], effect, k); }
      BetterChoiceKeeps(SelectBest(cands[..n], effect), cands[n], cands[k], effect);
    }
  }

  /** Lifecycles from the weakest to the strongest. */
  const STRENGTHS: seq<Lifecycle> :=
    [Candidate, SyntacticallyValid, IsolatedTested, VerifiedForTask, ProvisionallyAvailable, ReuseVerified, Promoted]

  predicate Weaker(a: Lifecycle, b: Lifecycle) {
    exists i, j :: 0 <= i < j < |STRENGTHS| && STRENGTHS[i] == a && STRENGTHS[j] == b
  }

  predicate Claims(c: Capability, effect: string) {
    effect != "" && c.effect == effect
  }

  lemma {:induction false} RankIsStrength(a: Lifecycle, b: Lifecycle)
    ensures LifecycleRank(a) < LifecycleRank(b) <==> Weaker(a, b)
  {
    var order := map[Candidate := 0, SyntacticallyValid := 1, IsolatedTested := 2, VerifiedForTask := 3,
                     ProvisionallyAvailable := 4, ReuseVerified := 5, Promoted := 6];
    assert a in order && b in order && STRENGTHS[order[a]] == a && STRENGTHS[order[b]] == b;
    assert forall i :: 0 <= i < |STRENGTHS| ==> order[STRENGTHS[i]] == i;
  }

  /** Strings are ordered by their first difference, a proper prefix first. */
  lemma {:induction false} StringLessExactly(a: string, b: string)
    ensures StringLess(a, b) <==>
            (a <= b && a != b) || exists k :: 0 <= k < |a| && k < |b| && a[..k] == b[..k] && a[k] < b[k]
  {
    if a != "" && b != "" {
      StringLessExactly(a[1..], b[1..]);
      if a[0] == b[0] {
        assert a == [a[0]] + a[1..] && b == [b[0]] + b[1..];
        if k :| 0 <= k < |a[1..]| && k < |b[1..]| && a[1..][..k] == b[1..][..k] && a[1..][k] < b[1..][k] {
          assert a[..k + 1] == [a[0]] + a[1..][..k] && b[..k + 1] == [b[0]] + b[1..][..k];
          assert a[..k + 1] == b[..k + 1] && a[k + 1] < b[k + 1];
        }
        if k :| 0 <= k < |a| && k < |b| && a[..k] == b[..k] && a[k] < b[k] {
          assert a[1..][..k - 1] == a[..k][1..] && b[1..][..k - 1] == b[..k][1..];
        }
      } else {
        assert forall k :: 0 < k < |a| && k < |b| ==> a[..k][0] == a[0] && b[..k][0] == b[0];
      }
    }
  }

  /**
   The selected capability claims the effect if any candidate does; among those alike in that none is stronger, among
   those of its strength it has a verifier if any has, and among those alike in that too its id is the last.
   */
  lemma {:induction false} SelectedInFields(cands: seq<Capability>, effect: string, c: Capability)
    requires c in cands
    ensures var best := SelectBest(cands, effect);
            && best in cands
            && (Claims(c, effect) ==> Claims(best, effect))
            && (Claims(c, effect) == Claims(best, effect) ==> !Weaker(best.lifecycle, c.lifecycle))
            && (Claims(c, effect) == Claims(best, effect) && c.lifecycle == best.lifecycle ==>
                  && (c.verifier.Some? ==> best.verifier.Some?)
                  && (c.verifier.Some? == best.verifier.Some? ==> !StringLess(best.id, c.id)))
  {
    var k: nat :| k < |cands| && cands[k] == c;
    SelectedIsMaximum(cands, effect, k);
    RankIsStrength(SelectBest(cands, effect).lifecycle, c.lifecycle);
  }

  /** The choice does not depend on registration order: it is the one maximum of a total order. */
  lemma {:induction false} SelectionIgnoresOrder(a: seq<Capability>, b: seq<Capability>, effect: string)
    requires a != [] && DistinctCapabilities(a)
    requires forall c :: c in a <==> c in b
    ensures b != [] && SelectBest(a, effect) == SelectBest(b, effect)
    ensures forall c :: c in a && c != SelectBest(a, effect) ==> Below(c, SelectBest(a, effect), effect)
  {
    assert a[0] in b;
    var x, y := SelectBest(a, effect), SelectBest(b, effect);
    var i :| 0 <= i < |a| && a[i] == y;
    var j :| 0 <= j < |b| && b[j] == x;
    SelectedIsMaximum(a, effect, i);
    SelectedIsMaximum(b, effect, j);
    forall c | c in a && c != x ensures Below(c, x, effect) {
      var k :| 0 <= k < |a| && a[k] == c;
      SelectedIsMaximum(a, effect, k);
      DistinctMembers(a, c, x);
      BelowIsTotal(c, x, effect);
    }
    if x != y {
      DistinctMembers(a, x, y);
      BelowIsTotal(x, y, effect);
    }
  }

  lemma {:induction false} DistinctMembers(caps: seq<Capability>, c: Capability, d: Capability)
    requires DistinctCapabilities(caps) && c in caps && d in caps && c != d
    ensures c.id != d.id
  {
    var i :| 0 <= i < |caps| && caps[i] == c;
    var j :| 0 <= j < |caps| && caps[j] == d;
    assert i < j || j < i;
  }

  /** The registry's dictionary, kept as its values in insertion order. */
  class CapabilityRegistry {
    var caps: seq<Capability>

    ghost predicate Valid()
      reads this
    {
      DistinctCapabilities(caps)
    }

    constructor ()
      ensures Valid() && caps == []
    {
      caps := [];
    }

    /** A known id is overwritten in place, a new one goes to the end. */
    method Register(manifest: Capability)
      requires Valid()
      modifies this
      ensures Valid()
      ensures Lookup(caps, manifest.id) == Some(manifest)
      ensures forall id :: id != manifest.id ==> Lookup(caps, id) == old(Lookup(caps, id))
      ensures |caps| == |old(caps)| + if old(Lookup(caps, manifest.id)).Some? then 0 else 1
    {
      ghost var before := caps;
      var i := 0;
      while i < |caps| && caps[i].id != manifest.id
        invariant 0 <= i <= |caps| && caps == before
        invariant forall j :: 0 <= j < i ==> caps[j].id != manifest.id
      {
        i := i + 1;
      }
      if i < |caps| {
        caps := caps[i := manifest];
        assert before[i] in before;
      } else {
        caps := caps + [manifest];
      }
      assert caps[i] == manifest && manifest in caps;
      LookupMember(caps, manifest);
      forall id | id != manifest.id ensures Lookup(caps, id) == Lookup(before, id) {
        SameElsewhere(before, caps, i, id);
      }
    }

    /** The two matching passes of the resolver. */
    method FindCandidates(o: Obligation) returns (found: seq<Capability>)
      ensures found == Candidates(caps, o)
    {
      found := [];
      assert caps[..0] == [];
      for i := 0 to |caps|
        invariant found == Filter(caps[..i], c => StrictMatch(c, o))
      {
        assert caps[..i + 1][..i] == caps[..i];
        if StrictMatch(caps[i], o) { found := found + [caps[i]]; }
      }
      assert caps[..|caps|] == caps;
      if found == [] && o.effect != "" {
        for i := 0 to |caps|
          invariant found == Filter(caps[..i], c => LooseMatch(c, o))
        {
          assert caps[..i + 1][..i] == caps[..i];
          if LooseMatch(caps[i], o) { found := found + [caps[i]]; }
        }
      }
    }
  }

  lemma {:induction false} SameElsewhere(before: seq<Capability>, after: seq<Capability>, i: nat, id: string)
    requires DistinctCapabilities(before) && DistinctCapabilities(after)
    requires i <= |before| && i < |after|
    requires after == if i < |before| then before[i := after[i]] else before + [after[i]]
    requires id != after[i].id && (i < |before| ==> id != before[i].id)
    ensures Lookup(after, id) == Lookup(before, id)
  {
    var x, y := Lookup(before, id), Lookup(after, id);
    if x.Some? {
      var j :| 0 <= j < |before| && before[j] == x.value;
      assert after[j] == x.value;
      LookupMember(after, x.value);
    }
    if y.Some? {
      var j :| 0 <= j < |after| && after[j] == y.value;
      assert j < |before| && before[j] == y.value;
      LookupMember(before, y.value);
    }
  }
}
