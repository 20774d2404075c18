/** The artifact registry: rows under idempotency keys, payload files, and the event ledger. */
module Artifacts {
  import opened Common
  import ColonJoin

  /** A content hash is ideal: the artifact itself, or the all-zero hash a route starts from. */
  datatype Digest = Zero | Of(artifact: Artifact)

  datatype Artifact = Artifact(kind: string, schema: string, body: string)

  /** The eight fields that are joined and hashed into an idempotency key. */
  datatype Key = Key(
    parentRun: string, planHash: string, step: string, source: Digest,
    commit: string, producer: string, policy: string, schema: string)

  /** Artifact ids carry the producing domain and the key's hash. */
  datatype Id = Id(domain: string, key: Key)

  datatype LifeState = Staged | Verified | Rejected | PromotedState | Superseded | RolledBack

  datatype Record = Record(id: Id, kind: string, content: Digest, state: LifeState)

  datatype Event = Event(id: Id, from: Option<LifeState>, to: LifeState)

  datatype Custody = Custody(rows: map<Key, Record>, files: map<Id, Artifact>, events: seq<Event>)

  // ---- The joined key text ----

  /** With a colon between fields, keys are told apart exactly when at most one of the eight may hold colons. */
  lemma {:induction false} KeyTextInjectiveExactly(allowed: set<nat>)
    requires forall i :: i in allowed ==> i < 8
    ensures ColonJoin.InjectiveOn(8, allowed) <==> |allowed| <= 1
  {
    ColonJoin.InjectiveExactly(8, allowed);
  }

  /** Whatever the environment, any two of its fields can be changed so that two environments share a key. */
  lemma {:induction false} KeyTextsCollide(f: seq<string>, i: nat, j: nat)
    requires |f| == 8 && i < j < 8
    ensures var (a, b) := (ColonJoin.Shifted(f, i, j, true), ColonJoin.Shifted(f, i, j, false));
            && a != b && ColonJoin.Join(a) == ColonJoin.Join(b)
            && forall k :: 0 <= k < 8 && k != i && k != j ==> a[k] == f[k] == b[k]
  {
    ColonJoin.ShiftedCollide(f, i, j);
  }

  // ---- Operations on custody ----

  /** An existing key keeps its row; the payload file is written either way. */
  function Stage(c: Custody, key: Key, domain: string, a: Artifact): (Custody, Record) {
    var id := Id(domain, key);
    var filed := c.(files := c.files[id := a]);
    if key in c.rows then (filed, c.rows[key])
    else
      var rec := Record(id, a.kind, Of(a), Staged);
      (filed.(rows := c.rows[key := rec], events := c.events + [Event(id, None, Staged)]), rec)
  }

  predicate HasRow(c: Custody, id: Id) {
    id.key in c.rows && c.rows[id.key].id == id
  }

  /** No edge of the lifecycle is refused; only an unknown id is an error. */
  function MoveTo(c: Custody, id: Id, to: LifeState): Option<Custody> {
    if !HasRow(c, id) then None
    else
      var rec := c.rows[id.key];
      Some(c.(rows := c.rows[id.key := rec.(state := to)], events := c.events + [Event(id, Some(rec.state), to)]))
  }

  function FindVerified(c: Custody, key: Key): Option<Record> {
    if key in c.rows && (c.rows[key].state.Verified? || c.rows[key].state.PromotedState?) then Some(c.rows[key])
        else None
  }

  // ---- Invariants ----

  /** Every row is filed under its own key and has a payload file. */
  ghost predicate Filed(c: Custody) {
    forall k :: k in c.rows ==> c.rows[k].id.key == k && c.rows[k].id in c.files
  }

  /** Last state recorded for each artifact in the ledger. */
  function Replay(events: seq<Event>): map<Id, LifeState> {
    if events == [] then map[]
    else Replay(events[..|events| - 1])[events[|events| - 1].id := events[|events| - 1].to]
  }

  /** The table is the replay of its ledger. */
  ghost predicate LedgerAgrees(c: Custody) {
    && (forall k :: k in c.rows ==>
          c.rows[k].id in Replay(c.events) && Replay(c.events)[c.rows[k].id] == c.rows[k].state)
    && (forall id :: id in Replay(c.events) ==> HasRow(c, id))
  }

  lemma {:induction false} ReplayOne(events: seq<Event>, e: Event)
    ensures Replay(events + [e]) == Replay(events)[e.id := e.to]
  {
    assert (events + [e])[..|events|] == events;
  }

  lemma {:induction false} AppendKeepsAgreement(before: Custody, after: Custody, e: Event)
    requires LedgerAgrees(before) && after.events == before.events + [e]
    requires HasRow(after, e.id) && after.rows[e.id.key].state == e.to
    requires forall k :: k in after.rows && k != e.id.key ==> k in before.rows && after.rows[k] == before.rows[k]
    requires forall k :: k in before.rows ==> k in after.rows && after.rows[k].id == before.rows[k].id
    requires Filed(after)
    ensures LedgerAgrees(after)
  {
    ReplayOne(before.events, e);
  }

  lemma {:induction false} StageKeepsInvariants(c: Custody, key: Key, domain: string, a: Artifact)
    requires Filed(c)
    ensures var (after, rec) := Stage(c, key, domain, a);
            && Filed(after) && after.rows[key] == rec && rec.id.key == key && HasRow(after, rec.id)
            && (LedgerAgrees(c) ==> LedgerAgrees(after)) && c.events <= after.events
  {
    if key !in c.rows && LedgerAgrees(c) {
      AppendKeepsAgreement(c, Stage(c, key, domain, a).0, Event(Id(domain, key), None, Staged));
    }
  }

  lemma {:induction false} MoveKeepsInvariants(c: Custody, id: Id, to: LifeState)
    requires Filed(c) && HasRow(c, id)
    ensures MoveTo(c, id, to).Some?
    ensures var after := MoveTo(c, id, to).value;
            Filed(after) && HasRow(after, id) && (LedgerAgrees(c) ==> LedgerAgrees(after)) && c.events <= after.events
  {
    if LedgerAgrees(c) {
      AppendKeepsAgreement(c, MoveTo(c, id, to).value, Event(id, Some(c.rows[id.key].state), to));
    }
  }

  /** Staging again under a key returns the first record, and leaves a file that matches it exactly for equal
      content. */
  lemma {:induction false} RestagingKeepsTheRecord(c: Custody, key: Key, domain: string, a: Artifact, b: Artifact)
    requires key !in c.rows
    ensures var (once, first) := Stage(c, key, domain, a);
            var (twice, second) := Stage(once, key, domain, b);
            && second == first && twice.rows == once.rows && twice.events == once.events
            && (twice.rows[key].content == Of(twice.files[first.id]) <==> a == b)
  {
  }

  // ---- The ledger as a chain ----

  /** The state the ledger gives an artifact last. */
  function LastState(events: seq<Event>, id: Id): Option<LifeState> {
    if id in Replay(events) then Some(Replay(events)[id]) else None
  }

  /** Every entry starts from the state the entries before it left the artifact in. */
  ghost predicate Chained(events: seq<Event>) {
    forall n :: 0 <= n < |events| ==> FollowsOn(events, n)
  }

  ghost predicate FollowsOn(events: seq<Event>, n: nat)
    requires n < |events|
  {
    events[n].from == LastState(events[..n], events[n].id)
  }

  lemma {:induction false} ChainGrows(events: seq<Event>, e: Event)
    requires Chained(events) && e.from == LastState(events, e.id)
    ensures Chained(events + [e])
  {
    var all := events + [e];
    forall n | 0 <= n < |all| ensures FollowsOn(all, n) {
      if n < |events| {
        assert FollowsOn(events, n) && all[..n] == events[..n];
      } else {
        assert all[..n] == events;
      }
    }
  }

  /** Staging and moving keep the ledger a chain. */
  lemma {:induction false} LedgerStaysChained(c: Custody, key: Key, domain: string, a: Artifact, id: Id, to: LifeState)
    requires Filed(c) && LedgerAgrees(c) && Chained(c.events)
    ensures Chained(Stage(c, key, domain, a).0.events)
    ensures MoveTo(c, id, to).Some? ==> Chained(MoveTo(c, id, to).value.events)
  {
    if key !in c.rows { ChainGrows(c.events, Event(Id(domain, key), None, Staged)); }
    if HasRow(c, id) { ChainGrows(c.events, Event(id, Some(c.rows[id.key].state), to)); }
  }

  /** A record is found exactly under its own key while it is VERIFIED or PROMOTED, and in no other state. */
  lemma {:induction false} FoundExactly(c: Custody, key: Key)
    requires Filed(c)
    ensures FindVerified(c, key).Some? <==>
            exists k :: k in c.rows && k == key && c.rows[k].state !in {Staged, Rejected, Superseded, RolledBack}
    ensures FindVerified(c, key).Some? ==>
              var rec := FindVerified(c, key).value; rec == c.rows[key] && rec.id.key == key && rec.id in c.files
  {
  }

  class ArtifactRegistry {
    var custody: Custody

    constructor ()
      ensures custody == Custody(map[], map[], []) && Filed(custody) && LedgerAgrees(custody)
    {
      custody := Custody(map[], map[], []);
    }

    method StageArtifact(key: Key, domain: string, a: Artifact) returns (rec: Record)
      requires Filed(custody)
      modifies this
      ensures (custody, rec) == Stage(old(custody), key, domain, a)
      ensures Filed(custody) && (old(LedgerAgrees(custody)) ==> LedgerAgrees(custody))
      ensures old(LedgerAgrees(custody) && Chained(custody.events)) ==> Chained(custody.events)
    {
      StageKeepsInvariants(custody, key, domain, a);
      if LedgerAgrees(custody) && Chained(custody.events) {
        LedgerStaysChained(custody, key, domain, a, Id(domain, key), Staged);
      }
      var id := Id(domain, key);
      custody := custody.(files := custody.files[id := a]);
      if key in custody.rows { return custody.rows[key]; }
      rec := Record(id, a.kind, Of(a), Staged);
      custody := custody.(rows := custody.rows[key := rec], events := custody.events + [Event(id, None, Staged)]);
    }

    method TransitionState(id: Id, to: LifeState) returns (ok: bool)
      requires Filed(custody)
      modifies this
      ensures ok == old(HasRow(custody, id))
      ensures ok ==> Some(custody) == MoveTo(old(custody), id, to)
      ensures !ok ==> custody == old(custody)
      ensures Filed(custody) && (old(LedgerAgrees(custody)) ==> LedgerAgrees(custody))
      ensures old(LedgerAgrees(custody) && Chained(custody.events)) ==> Chained(custody.events)
    {
      if LedgerAgrees(custody) && Chained(custody.events) {
        LedgerStaysChained(custody, id.key, id.domain, Artifact("", "", ""), id, to);
      }
      if !(id.key in custody.rows && custody.rows[id.key].id == id) { return false; }
      MoveKeepsInvariants(custody, id, to);
      var rec := custody.rows[id.key];
      custody := custody.(rows := custody.rows[id.key := rec.(state := to)],
                          events := custody.events + [Event(id, Some(rec.state), to)]);
      return true;
    }

    method FindVerifiedArtifact(key: Key) returns (found: Option<Record>)
      ensures found == FindVerified(custody, key)
      ensures found.Some? <==> key in custody.rows && custody.rows[key].state in {Verified, PromotedState}
      ensures found.Some? ==> found.value == custody.rows[key]
    {
      if key in custody.rows {
        var state := custody.rows[key].state;
        if state in [Verified, PromotedState] { return Some(custody.rows[key]); }
      }
      found := None;
    }
  }
}
