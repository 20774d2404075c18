/** The registry's topological task sorter (Kahn's algorithm over two dictionaries and a queue). */
module DagSorter {
  import opened Common
  import opened TaskGraph

  /** A task with its resolved id. */
  datatype Node<T> = Node(id: T, deps: seq<T>)

  ghost function Ids<T(!new)>(tasks: seq<Node<T>>): set<T> {
    set i | 0 <= i < |tasks| :: tasks[i].id
  }

  ghost predicate DistinctIds<T(!new)>(tasks: seq<Node<T>>) {
    forall i, j :: 0 <= i < j < |tasks| ==> tasks[i].id != tasks[j].id
  }

  /** The dependencies on known tasks; unknown names are ignored. */
  ghost function KnownEdges<T(!new)>(tasks: seq<Node<T>>): set<Edge<T>> {
    set i, d | 0 <= i < |tasks| && d in tasks[i].deps && d in Ids(tasks) :: (d, tasks[i].id)
  }

  ghost function Elems<T(!new)>(s: seq<T>): set<T> {
    set x | x in s
  }

  // ---- Building the two dictionaries ----

  /**
   `sources[x]` is the multiset of known dependencies of x that the tables record: in-degrees are its
   size, and the adjacency list of d names x as often as x names d.
   */
  ghost predicate Tables<T(!new)>(
    sources: map<T, multiset<T>>, ids: set<T>, adj: map<T, seq<T>>, inDegree: map<T, int>)
  {
    && sources.Keys == adj.Keys == inDegree.Keys == ids
    && (forall x :: x in ids ==> inDegree[x] == |sources[x]|)
    && (forall d, x {:trigger Mirrored(sources, adj, d, x)} :: d in ids && x in ids ==> Mirrored(sources, adj, d, x))
    && (forall d {:trigger adj[d]} :: d in ids ==> Elems(adj[d]) <= ids)
  }

  ghost predicate Mirrored<T(!new)>(sources: map<T, multiset<T>>, adj: map<T, seq<T>>, d: T, x: T)
    requires d in adj && x in sources
  {
    multiset(adj[d])[x] == sources[x][d]
  }

  ghost predicate KnownBefore<T(!new)>(tasks: seq<Node<T>>, n: nat, d: T, x: T)
    requires n <= |tasks|
  {
    exists i :: 0 <= i < n && tasks[i].id == x && d in tasks[i].deps && d in Ids(tasks)
  }

  /** The dictionary comprehensions; `order` is the insertion order of their keys. */
  method EmptyTables<T(==, !new)>(tasks: seq<Node<T>>)
    returns (order: seq<T>, adj: map<T, seq<T>>, inDegree: map<T, int>, ghost sources: map<T, multiset<T>>)
    ensures Tables(sources, Ids(tasks), adj, inDegree)
    ensures forall x :: x in sources ==> sources[x] == multiset{}
    ensures NoRepeats(order) && forall x :: x in order <==> x in Ids(tasks)
  {
    order, adj, inDegree, sources := [], map[], map[], map[];
    for i := 0 to |tasks|
      invariant NoRepeats(order) && forall x :: x in order <==> x in inDegree.Keys
      invariant sources.Keys == adj.Keys == inDegree.Keys == set j | 0 <= j < i :: tasks[j].id
      invariant forall x :: x in adj ==> adj[x] == [] && inDegree[x] == 0 && sources[x] == multiset{}
    {
      var key := tasks[i].id;
      if key !in inDegree { order := order + [key]; }
      adj, inDegree, sources := adj[key := []], inDegree[key := 0], sources[key := multiset{}];
    }
  }

  lemma {:induction false} TablesGrow<T(!new)>(
    sources: map<T, multiset<T>>, ids: set<T>, adj: map<T, seq<T>>, inDegree: map<T, int>, dep: T, key: T)
    requires Tables(sources, ids, adj, inDegree) && dep in ids && key in ids
    ensures Tables(sources[key := sources[key] + multiset{dep}], ids,
                   adj[dep := adj[dep] + [key]], inDegree[key := inDegree[key] + 1])
  {
    var sources', adj' := sources[key := sources[key] + multiset{dep}], adj[dep := adj[dep] + [key]];
    assert Elems(adj[dep] + [key]) == Elems(adj[dep]) + {key};
    forall d, x | d in ids && x in ids ensures Mirrored(sources', adj', d, x) {
      assert Mirrored(sources, adj, d, x);
    }
  }

  /** One task's dependencies: unknown names are skipped, repeated names count again. */
  method AddDependencies<T(==, !new)>(
    deps: seq<T>, key: T, ghost ids: set<T>, adj0: map<T, seq<T>>, inDegree0: map<T, int>,
    ghost sources0: map<T, multiset<T>>)
    returns (adj: map<T, seq<T>>, inDegree: map<T, int>, ghost sources: map<T, multiset<T>>)
    requires Tables(sources0, ids, adj0, inDegree0) && key in ids
    ensures Tables(sources, ids, adj, inDegree)
    ensures Gained(sources0, sources, ids, key, deps)
  {
    adj, inDegree, sources := adj0, inDegree0, sources0;
    GainedNothing(sources0, ids, key);
    assert deps[..0] == [];
    for j := 0 to |deps|
      invariant Tables(sources, ids, adj, inDegree)
      invariant Gained(sources0, sources, ids, key, deps[..j])
    {
      var dep := deps[j];
      GainedOne(sources0, sources, ids, key, deps, j);
      if dep in adj {
        TablesGrow(sources, ids, adj, inDegree, dep, key);
        sources := sources[key := sources[key] + multiset{dep}];
        adj, inDegree := adj[dep := adj[dep] + [key]], inDegree[key := inDegree[key] + 1];
      }
    }
    assert deps[..|deps|] == deps;
  }

  /** The recorded sources of `key` grew by the known names among deps; no other task's changed. */
  ghost predicate Gained<T(!new)>(
    was: map<T, multiset<T>>, now: map<T, multiset<T>>, ids: set<T>, key: T, deps: seq<T>)
  {
    && was.Keys == now.Keys == ids && key in ids
    && (forall x :: x in ids && x != key ==> now[x] == was[x])
    && (forall d {:trigger Names(now[key], d)} :: Names(now[key], d) <==> Names(was[key], d) || (d in deps && d in ids))
  }

  ghost predicate Names<T(!new)>(m: multiset<T>, d: T) {
    d in m
  }

  lemma {:induction false} GainedNothing<T(!new)>(sources: map<T, multiset<T>>, ids: set<T>, key: T)
    requires sources.Keys == ids && key in ids
    ensures Gained(sources, sources, ids, key, [])
  {
  }

  lemma {:induction false} GainedOne<T(!new)>(
    was: map<T, multiset<T>>, now: map<T, multiset<T>>, ids: set<T>, key: T, deps: seq<T>, j: nat)
    requires j < |deps| && Gained(was, now, ids, key, deps[..j])
    ensures deps[j] in ids ==>
      Gained(was, now[key := now[key] + multiset{deps[j]}], ids, key, deps[..j + 1])
    ensures deps[j] !in ids ==> Gained(was, now, ids, key, deps[..j + 1])
  {
    assert deps[..j + 1] == deps[..j] + [deps[j]];
    var now' := if deps[j] in ids then now[key := now[key] + multiset{deps[j]}] else now;
    forall d ensures Names(now'[key], d) <==> Names(was[key], d) || (d in deps[..j + 1] && d in ids) {
      assert Names(now[key], d) <==> Names(was[key], d) || (d in deps[..j] && d in ids);
    }
  }

  /** `sources` records exactly the known dependencies found in the first n tasks. */
  ghost predicate RecordedBefore<T(!new)>(sources: map<T, multiset<T>>, tasks: seq<Node<T>>, n: nat)
    requires n <= |tasks|
  {
    && sources.Keys == Ids(tasks)
    && forall x, d {:trigger KnownBefore(tasks, n, d, x)} :: x in sources ==>
         (Names(sources[x], d) <==> KnownBefore(tasks, n, d, x))
  }

  lemma {:induction false} RecordedNext<T(!new)>(
      was: map<T, multiset<T>>, now: map<T, multiset<T>>, tasks: seq<Node<T>>, i: nat)
    requires i < |tasks| && RecordedBefore(was, tasks, i)
    requires Gained(was, now, Ids(tasks), tasks[i].id, tasks[i].deps)
    ensures RecordedBefore(now, tasks, i + 1)
  {
    var key := tasks[i].id;
    forall x, d | x in now ensures Names(now[x], d) <==> KnownBefore(tasks, i + 1, d, x) {
      assert Names(was[x], d) <==> KnownBefore(tasks, i, d, x);
      if x == key {
        assert Names(now[key], d) <==> Names(was[key], d) || (d in tasks[i].deps && d in Ids(tasks));
      }
    }
  }

  /** `sources` and `edges` are the same dependencies. */
  ghost predicate SameEdges<T(!new)>(sources: map<T, multiset<T>>, edges: set<Edge<T>>) {
    forall x, d {:trigger (d, x) in edges} {:trigger Names(sources[x], d)} :: x in sources ==>
      (Names(sources[x], d) <==> (d, x) in edges)
  }

  method BuildTables<T(==, !new)>(tasks: seq<Node<T>>)
    returns (order: seq<T>, adj: map<T, seq<T>>, inDegree: map<T, int>, ghost sources: map<T, multiset<T>>)
    ensures Tables(sources, Ids(tasks), adj, inDegree)
    ensures SameEdges(sources, KnownEdges(tasks))
    ensures NoRepeats(order) && forall x :: x in order <==> x in Ids(tasks)
  {
    order, adj, inDegree, sources := EmptyTables(tasks);
    ghost var ids := Ids(tasks);
    for i := 0 to |tasks|
      invariant Tables(sources, ids, adj, inDegree) && ids == Ids(tasks)
      invariant RecordedBefore(sources, tasks, i)
    {
      ghost var before := sources;
      adj, inDegree, sources := AddDependencies(tasks[i].deps, tasks[i].id, ids, adj, inDegree, sources);
      RecordedNext(before, sources, tasks, i);
    }
    RecordedAll(sources, tasks);
  }

  lemma {:induction false} RecordedAll<T(!new)>(sources: map<T, multiset<T>>, tasks: seq<Node<T>>)
    requires RecordedBefore(sources, tasks, |tasks|)
    ensures SameEdges(sources, KnownEdges(tasks))
  {
    forall x, d | x in sources ensures Names(sources[x], d) <==> (d, x) in KnownEdges(tasks) {
      assert Names(sources[x], d) <==> KnownBefore(tasks, |tasks|, d, x);
    }
  }

  // ---- Draining the queue ----

  /**
   The bookkeeping of the main loop. `found` is every task queued so far, in queue order; `done` is
   the part already listed; `waiting[x]` is what is left of `sources[x]` once `done` is taken out.
   */
  ghost predicate Draining<T(!new)>(
    sources: map<T, multiset<T>>, ids: set<T>, found: seq<T>, done: set<T>,
    waiting: map<T, multiset<T>>, inDegree: map<T, int>)
  {
    && sources.Keys == waiting.Keys == inDegree.Keys == ids
    && NoRepeats(found) && (forall x :: x in found ==> x in ids)
    && (forall x :: x in ids ==> inDegree[x] == |waiting[x]|)
    && (forall x :: x in ids ==> (x in found <==> inDegree[x] == 0))
    && (forall x, d {:trigger Awaits(waiting, x, d)} :: x in ids ==>
          Awaits(waiting, x, d) == if d in done then 0 else Awaits(sources, x, d))
  }

  ghost function Awaits<T(!new)>(waiting: map<T, multiset<T>>, x: T, d: T): nat
    requires x in waiting
  {
    waiting[x][d]
  }

  /** The same in the middle of listing `node`: its first k targets have been released. */
  ghost predicate Releasing<T(!new)>(
    sources: map<T, multiset<T>>, ids: set<T>, found: seq<T>, done: set<T>, node: T, released: seq<T>,
    waiting: map<T, multiset<T>>, inDegree: map<T, int>)
  {
    && sources.Keys == waiting.Keys == inDegree.Keys == ids
    && NoRepeats(found) && (forall x :: x in found ==> x in ids)
    && (forall x :: x in ids ==> inDegree[x] == |waiting[x]|)
    && (forall x :: x in ids ==> (x in found <==> inDegree[x] == 0))
    && (forall x, d {:trigger Awaits(waiting, x, d)} :: x in ids && d != node ==>
          Awaits(waiting, x, d) == if d in done then 0 else Awaits(sources, x, d))
    && (forall x {:trigger Awaits(waiting, x, node)} :: x in ids ==>
          Awaits(waiting, x, node) + multiset(released)[x] == Awaits(sources, x, node))
  }

  /** Releasing one target: it was still waiting, so it cannot have been queued before. */
  lemma {:induction false} ReleaseOne<T(!new)>(
    sources: map<T, multiset<T>>, ids: set<T>, found: seq<T>, done: set<T>, node: T, released: seq<T>, x: T,
    waiting: map<T, multiset<T>>, inDegree: map<T, int>)
    requires Releasing(sources, ids, found, done, node, released, waiting, inDegree)
    requires x in ids && multiset(released)[x] < Awaits(sources, x, node)
    ensures
      var waiting' := waiting[x := waiting[x] - multiset{node}];
      var inDegree' := inDegree[x := inDegree[x] - 1];
      Releasing(sources, ids, if inDegree'[x] == 0 then found + [x] else found, done, node, released + [x],
                waiting', inDegree')
  {
    assert Awaits(waiting, x, node) > 0;
    assert x !in found;
    var waiting' := waiting[x := waiting[x] - multiset{node}];
    forall y, d | y in ids
      ensures Awaits(waiting', y, d) == Awaits(waiting, y, d) - if y == x && d == node then 1 else 0
    {
    }
    assert multiset(released + [x]) == multiset(released) + multiset{x};
  }

  lemma {:induction false} StillToRelease<T(!new)>(targets: seq<T>, ids: set<T>, k: nat)
    requires k < |targets| && Elems(targets) <= ids
    ensures targets[k] in ids
    ensures targets[..k + 1] == targets[..k] + [targets[k]]
    ensures multiset(targets[..k])[targets[k]] < multiset(targets)[targets[k]]
  {
    assert targets[k] in Elems(targets);
    assert targets == targets[..k] + [targets[k]] + targets[k + 1..];
  }

  method Release<T(==, !new)>(
    targets: seq<T>, ghost sources: map<T, multiset<T>>, ghost ids: set<T>, ghost found: seq<T>,
    ghost done: set<T>, ghost node: T, inDegree0: map<T, int>, ghost waiting0: map<T, multiset<T>>)
    returns (freed: seq<T>, inDegree: map<T, int>, ghost waiting: map<T, multiset<T>>)
    requires Draining(sources, ids, found, done, waiting0, inDegree0) && node !in done
    requires Elems(targets) <= ids
    requires forall x {:trigger Awaits(sources, x, node)} :: x in ids ==>
            multiset(targets)[x] == Awaits(sources, x, node)
    ensures Draining(sources, ids, found + freed, done + {node}, waiting, inDegree)
  {
    freed, inDegree, waiting := [], inDegree0, waiting0;
    ReleaseBegins(sources, ids, found, done, node, waiting, inDegree);
    ghost var now, released := found, [];
    for k := 0 to |targets|
      invariant released == targets[..k] && now == found + freed
      invariant Releasing(sources, ids, now, done, node, released, waiting, inDegree)
    {
      var x := targets[k];
      StillToRelease(targets, ids, k);
      assert multiset(targets)[x] == Awaits(sources, x, node);
      ReleaseOne(sources, ids, now, done, node, released, x, waiting, inDegree);
      released := released + [x];
      waiting, inDegree := waiting[x := waiting[x] - multiset{node}], inDegree[x := inDegree[x] - 1];
      if inDegree[x] == 0 {
        now, freed := now + [x], freed + [x];
      }
    }
    assert released == targets;
    ReleaseEnds(sources, ids, now, done, node, targets, waiting, inDegree);
  }

  lemma {:induction false} ReleaseBegins<T(!new)>(
    sources: map<T, multiset<T>>, ids: set<T>, found: seq<T>, done: set<T>, node: T,
    waiting: map<T, multiset<T>>, inDegree: map<T, int>)
    requires Draining(sources, ids, found, done, waiting, inDegree) && node !in done
    ensures Releasing(sources, ids, found, done, node, [], waiting, inDegree)
  {
  }

  lemma {:induction false} ReleaseEnds<T(!new)>(
    sources: map<T, multiset<T>>, ids: set<T>, found: seq<T>, done: set<T>, node: T, targets: seq<T>,
    waiting: map<T, multiset<T>>, inDegree: map<T, int>)
    requires Releasing(sources, ids, found, done, node, targets, waiting, inDegree)
    requires forall x {:trigger Awaits(sources, x, node)} :: x in ids ==>
            multiset(targets)[x] == Awaits(sources, x, node)
    ensures Draining(sources, ids, found, done + {node}, waiting, inDegree)
  {
  }

  /** The tasks with no known dependencies, in dictionary order. */
  method InitialQueue<T(==, !new)>(order: seq<T>, inDegree: map<T, int>) returns (queue: seq<T>)
    requires NoRepeats(order) && forall x :: x in order <==> x in inDegree.Keys
    ensures NoRepeats(queue)
    ensures forall x :: x in queue <==> x in inDegree && inDegree[x] == 0
  {
    queue := [];
    for i := 0 to |order|
      invariant NoRepeats(queue)
      invariant forall x :: x in queue <==> x in order[..i] && inDegree[x] == 0
    {
      assert order[i] in order;
      assert order[..i + 1] == order[..i] + [order[i]];
      if inDegree[order[i]] == 0 { queue := queue + [order[i]]; }
    }
    assert order[..|order|] == order;
  }

  /** The front of the queue waits for nothing, so all its dependencies are listed already. */
  lemma {:induction false} FrontIsReady<T(!new)>(
    sources: map<T, multiset<T>>, ids: set<T>, listed: seq<T>, node: T, rest: seq<T>, found: seq<T>,
    waiting: map<T, multiset<T>>, inDegree: map<T, int>, edges: set<Edge<T>>)
    requires found == listed + [node] + rest
    requires Draining(sources, ids, found, Elems(listed), waiting, inDegree)
    requires SameEdges(sources, edges)
    requires DependenciesFirst(edges, listed)
    ensures node in ids && node !in listed
    ensures DependenciesFirst(edges, listed + [node])
    ensures Elems(listed + [node]) == Elems(listed) + {node}
  {
    assert found[|listed|] == node && node in found;
    forall i | 0 <= i < |listed| ensures listed[i] != node { assert found[i] == listed[i]; }
    assert waiting[node] == multiset{};
    var t := listed + [node];
    forall d, j | 0 <= j < |t| && (d, t[j]) in edges ensures d in t[..j] {
      if j < |listed| {
        assert t[..j] == listed[..j] && t[j] == listed[j];
      } else {
        assert t[..j] == listed && Names(sources[node], d);
        assert Awaits(waiting, node, d) == 0;
      }
    }
  }

  /** When the queue runs dry, a task is unlisted exactly while some dependency of it is unlisted. */
  lemma {:induction false} DryIsStalled<T(!new)>(
    sources: map<T, multiset<T>>, ids: set<T>, listed: seq<T>, waiting: map<T, multiset<T>>,
    inDegree: map<T, int>, edges: set<Edge<T>>)
    requires Draining(sources, ids, listed, Elems(listed), waiting, inDegree)
    requires SameEdges(sources, edges)
    ensures Stalled(edges, ids, listed)
  {
    forall x | x in ids ensures ListedIffReady(edges, listed, x) {
      if x in listed {
        assert waiting[x] == multiset{};
        forall d | (d, x) in edges ensures d in listed {
          assert Names(sources[x], d) && Awaits(waiting, x, d) == 0;
        }
      } else {
        var d :| d in waiting[x];
        assert Awaits(waiting, x, d) > 0;
        assert d !in listed && Names(sources[x], d);
      }
    }
  }

  method Drain<T(==, !new)>(
    order: seq<T>, adj: map<T, seq<T>>, inDegree0: map<T, int>, ghost sources: map<T, multiset<T>>,
    ghost ids: set<T>, ghost edges: set<Edge<T>>)
    returns (sorted: seq<T>)
    requires Tables(sources, ids, adj, inDegree0)
    requires NoRepeats(order) && forall x :: x in order <==> x in ids
    requires SameEdges(sources, edges)
    requires Within(edges, ids)
    ensures NoRepeats(sorted) && forall x :: x in sorted ==> x in ids
    ensures DependenciesFirst(edges, sorted) && Stalled(edges, ids, sorted)
  {
    var queue := InitialQueue(order, inDegree0);
    var inDegree := inDegree0;
    ghost var waiting, found, done := sources, queue, {};
    sorted := [];
    DrainBegins(sources, ids, adj, inDegree, queue);
    while queue != []
      invariant found == sorted + queue && done == Elems(sorted)
      invariant Draining(sources, ids, found, done, waiting, inDegree)
      invariant DependenciesFirst(edges, sorted)
      decreases ids - done
    {
      var node := queue[0];
      FrontIsReady(sources, ids, sorted, node, queue[1..], found, waiting, inDegree, edges);
      TargetsMirrored(sources, ids, adj, inDegree0, node);
      var freed;
      freed, inDegree, waiting := Release(adj[node], sources, ids, found, done, node, inDegree, waiting);
      QueueShifts(sorted, queue, freed);
      sorted, queue := sorted + [node], queue[1..] + freed;
      found, done := found + freed, done + {node};
    }
    assert found == sorted;
    DryIsStalled(sources, ids, sorted, waiting, inDegree, edges);
  }

  lemma {:induction false} QueueShifts<T>(sorted: seq<T>, queue: seq<T>, freed: seq<T>)
    requires queue != []
    ensures sorted + queue + freed == (sorted + [queue[0]]) + (queue[1..] + freed)
    ensures sorted + queue == sorted + [queue[0]] + queue[1..]
  {
  }

  lemma {:induction false} DrainBegins<T(!new)>(
    sources: map<T, multiset<T>>, ids: set<T>, adj: map<T, seq<T>>, inDegree: map<T, int>, queue: seq<T>)
    requires Tables(sources, ids, adj, inDegree) && NoRepeats(queue)
    requires forall x :: x in queue <==> x in inDegree && inDegree[x] == 0
    ensures Draining(sources, ids, queue, {}, sources, inDegree)
  {
  }

  lemma {:induction false} TargetsMirrored<T(!new)>(
    sources: map<T, multiset<T>>, ids: set<T>, adj: map<T, seq<T>>, inDegree: map<T, int>, node: T)
    requires Tables(sources, ids, adj, inDegree) && node in ids
    ensures Elems(adj[node]) <= ids
    ensures forall x {:trigger Awaits(sources, x, node)} :: x in ids ==>
            multiset(adj[node])[x] == Awaits(sources, x, node)
  {
    forall x | x in ids ensures multiset(adj[node])[x] == Awaits(sources, x, node) {
      assert Mirrored(sources, adj, node, x);
    }
  }

  lemma {:induction false} IdCount<T(!new)>(tasks: seq<Node<T>>)
    ensures |Ids(tasks)| <= |tasks|
    ensures |Ids(tasks)| == |tasks| <==> DistinctIds(tasks)
  {
    var keys := seq(|tasks|, i requires 0 <= i < |tasks| => tasks[i].id);
    assert forall i :: 0 <= i < |tasks| ==> keys[i] == tasks[i].id;
    forall x ensures x in keys <==> x in Ids(tasks) {
      if x in Ids(tasks) { var i :| 0 <= i < |tasks| && tasks[i].id == x; assert keys[i] == x; }
    }
    assert Ids(tasks) == set x | x in keys;
    ListedCount(keys);
    if DistinctIds(tasks) {
      assert NoRepeats(keys);
    } else {
      var i, j :| 0 <= i < j < |tasks| && tasks[i].id == tasks[j].id;
      assert keys[i] == keys[j];
    }
  }

  method Sort<T(==, !new)>(tasks: seq<Node<T>>) returns (sorted: seq<T>, hasCycles: bool)
    ensures NoRepeats(sorted)
    ensures forall x :: x in sorted ==> x in Ids(tasks)
    ensures DependenciesFirst(KnownEdges(tasks), sorted)
    ensures forall x :: x in Ids(tasks) ==> (x !in sorted <==> DependsOnCycle(KnownEdges(tasks), x))
    ensures hasCycles <==> (exists c :: OnCycle(KnownEdges(tasks), c)) || !DistinctIds(tasks)
  {
    var order, adj, inDegree;
    ghost var sources;
    order, adj, inDegree, sources := BuildTables(tasks);
    ghost var ids, edges := Ids(tasks), KnownEdges(tasks);
    sorted := Drain(order, adj, inDegree, sources, ids, edges);
    forall x | x in ids ensures x !in sorted <==> DependsOnCycle(edges, x) {
      UnlistedExactly(edges, ids, sorted, x);
    }
    ShortExactlyOnCycle(edges, ids, sorted);
    IdCount(tasks);
    hasCycles := if tasks != [] then |sorted| < |tasks| else false;
  }

  // ---- The adapter: string ids, some of them missing ----

  datatype TaskSpec = TaskSpec(id: Option<string>, dependencies: seq<string>)

  function Decimal(n: nat): string {
    var digit := ["0", "1", "2", "3", "4", "5", "6", "7", "8", "9"][n % 10];
    if n < 10 then digit else Decimal(n / 10) + digit
  }

  /** A task without an id is called t0, t1, ... after its position. */
  function Named(tasks: seq<TaskSpec>): (nodes: seq<Node<string>>)
    ensures |nodes| == |tasks|
    ensures forall i :: 0 <= i < |tasks| ==> nodes[i].deps == tasks[i].dependencies
    ensures forall i :: 0 <= i < |tasks| && tasks[i].id.Some? ==> nodes[i].id == tasks[i].id.value
  {
    seq(|tasks|, i requires 0 <= i < |tasks| =>
      Node(if tasks[i].id.Some? then tasks[i].id.value else "t" + Decimal(i), tasks[i].dependencies))
  }

  method PhysicalDagAdapter(tasks: seq<TaskSpec>) returns (sortedDag: seq<string>, hasCycles: bool, nodeCount: nat)
    ensures var edges := KnownEdges(Named(tasks));
      && NoRepeats(sortedDag) && nodeCount == |sortedDag|
      && (forall x :: x in sortedDag ==> x in Ids(Named(tasks)))
      && DependenciesFirst(edges, sortedDag)
      && (forall x :: x in Ids(Named(tasks)) ==> (x !in sortedDag <==> DependsOnCycle(edges, x)))
      && (hasCycles <==> (exists c :: OnCycle(edges, c)) || !DistinctIds(Named(tasks)))
  {
    sortedDag, hasCycles := Sort(Named(tasks));
    nodeCount := |sortedDag|;
  }
}
