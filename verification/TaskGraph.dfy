/**
 Finite dependency graphs: paths, cycles, and why an ordering that stalls has met a cycle.
 An edge (d, x) says that x depends on d.
 */
module TaskGraph {

  type Edge<T> = (T, T)

  ghost predicate Path<T(!new)>(edges: set<Edge<T>>, p: seq<T>) {
    |p| > 0 && forall i, j :: 0 <= i && j == i + 1 && j < |p| ==> (p[i], p[j]) in edges
  }

  ghost predicate OnCycle<T(!new)>(edges: set<Edge<T>>, c: T) {
    exists p :: Path(edges, p) && |p| > 1 && p[0] == c && p[|p| - 1] == c
  }

  /** x is on a cycle, or depends on one directly or indirectly. */
  ghost predicate DependsOnCycle<T(!new)>(edges: set<Edge<T>>, x: T) {
    exists p :: Path(edges, p) && OnCycle(edges, p[0]) && p[|p| - 1] == x
  }

  ghost predicate NoRepeats<T(!new)>(s: seq<T>) {
    forall i, j :: 0 <= i < j < |s| ==> s[i] != s[j]
  }

  /** Every dependency of a listed task is listed before it. */
  ghost predicate DependenciesFirst<T(!new)>(edges: set<Edge<T>>, s: seq<T>) {
    forall d, j :: 0 <= j < |s| && (d, s[j]) in edges ==> d in s[..j]
  }

  /** A task is listed exactly when no unlisted task is among its dependencies. */
  ghost predicate Stalled<T(!new)>(edges: set<Edge<T>>, ids: set<T>, s: seq<T>) {
    forall x {:trigger ListedIffReady(edges, s, x)} :: x in ids ==> ListedIffReady(edges, s, x)
  }

  ghost predicate ListedIffReady<T(!new)>(edges: set<Edge<T>>, s: seq<T>, x: T) {
    x in s <==> forall d :: (d, x) in edges ==> d in s
  }

  ghost predicate Within<T(!new)>(edges: set<Edge<T>>, ids: set<T>) {
    forall e :: e in edges ==> e.0 in ids && e.1 in ids
  }

  lemma {:induction false} NoRepeatsBound<T(!new)>(s: seq<T>, u: set<T>)
    requires NoRepeats(s) && forall x :: x in s ==> x in u
    ensures |s| <= |u|
    decreases |s|
  {
    if s != [] {
      var n := |s| - 1;
      assert s[n] in s;
      forall x | x in s[..n] ensures x in u - {s[n]} {
        var i :| 0 <= i < n && s[..n][i] == x;
        assert s[i] in s;
      }
      NoRepeatsBound(s[..n], u - {s[n]});
    }
  }

  /** In an unlisted set where everything has an unlisted dependency, one can walk back forever. */
  ghost predicate HasSourceIn<T(!new)>(edges: set<Edge<T>>, u: set<T>, y: T) {
    exists d :: d in u && (d, y) in edges
  }

  lemma {:induction false} PathGrowsBack<T(!new)>(edges: set<Edge<T>>, d: T, q: seq<T>)
    requires Path(edges, q) && (d, q[0]) in edges
    ensures Path(edges, [d] + q)
  {
    var p := [d] + q;
    forall i, j | 0 <= i && j == i + 1 && j < |p| ensures (p[i], p[j]) in edges {
      if i > 0 { assert p[i] == q[i - 1] && p[j] == q[j - 1]; }
    }
  }

  lemma {:induction false} PathPart<T(!new)>(edges: set<Edge<T>>, p: seq<T>, lo: nat, hi: nat)
    requires Path(edges, p) && lo < hi <= |p|
    ensures Path(edges, p[lo..hi])
  {
    var q := p[lo..hi];
    forall i, j | 0 <= i && j == i + 1 && j < |q| ensures (q[i], q[j]) in edges {
      assert q[i] == p[lo + i] && q[j] == p[lo + j];
    }
  }

  lemma {:induction false} WalkBack<T(!new)>(edges: set<Edge<T>>, u: set<T>, x: T, n: nat) returns (p: seq<T>)
    requires x in u
    requires forall y :: y in u ==> HasSourceIn(edges, u, y)
    ensures |p| == n + 1 && Path(edges, p) && p[n] == x && forall y :: y in p ==> y in u
    decreases n
  {
    if n == 0 {
      p := [x];
    } else {
      var q := WalkBack(edges, u, x, n - 1);
      assert q[0] in q && HasSourceIn(edges, u, q[0]);
      var d :| d in u && (d, q[0]) in edges;
      PathGrowsBack(edges, d, q);
      p := [d] + q;
    }
  }

  lemma {:induction false} RepeatGivesCycle<T(!new)>(edges: set<Edge<T>>, p: seq<T>, i: nat, j: nat)
    requires Path(edges, p) && i < j < |p| && p[i] == p[j]
    ensures DependsOnCycle(edges, p[|p| - 1])
  {
    PathPart(edges, p, i, j + 1);
    PathPart(edges, p, i, |p|);
    var loop, tail := p[i..j + 1], p[i..|p|];
    assert loop[0] == p[i] && loop[|loop| - 1] == p[i];
    assert tail[0] == p[i] && tail[|tail| - 1] == p[|p| - 1];
  }

  lemma {:induction false} UnlistedHaveUnlistedSources<T(!new)>(
      edges: set<Edge<T>>, ids: set<T>, s: seq<T>) returns (u: set<T>)
    requires Within(edges, ids) && Stalled(edges, ids, s)
    ensures u == set y | y in ids && y !in s
    ensures forall y :: y in u ==> HasSourceIn(edges, u, y)
  {
    u := set y | y in ids && y !in s;
    forall y | y in u ensures HasSourceIn(edges, u, y) {
      assert ListedIffReady(edges, s, y);
      var d :| (d, y) in edges && d !in s;
      assert (d, y).0 in ids;
    }
  }

  /** A long enough walk repeats a node, so it comes out of a cycle. */
  lemma {:induction false} UnlistedDependsOnCycle<T(!new)>(edges: set<Edge<T>>, ids: set<T>, s: seq<T>, x: T)
    requires Within(edges, ids) && Stalled(edges, ids, s)
    requires x in ids && x !in s
    ensures DependsOnCycle(edges, x)
  {
    var u := UnlistedHaveUnlistedSources(edges, ids, s);
    var p := WalkBack(edges, u, x, |u|);
    if NoRepeats(p) { NoRepeatsBound(p, u); }
    var i, j :| 0 <= i < j < |p| && p[i] == p[j];
    RepeatGivesCycle(edges, p, i, j);
  }

  /** Along a path into a listed task, positions in the list grow strictly. */
  lemma {:induction false} PathIsListedInOrder<T(!new)>(edges: set<Edge<T>>, s: seq<T>, p: seq<T>, j: nat)
    requires Path(edges, p) && NoRepeats(s) && DependenciesFirst(edges, s)
    requires j < |s| && p[|p| - 1] == s[j]
    ensures exists i :: 0 <= i <= j && s[i] == p[0] && (|p| > 1 ==> i < j)
    decreases |p|
  {
    if |p| > 1 {
      var n := |p| - 1;
      assert (p[n - 1], p[n]) in edges;
      var k :| 0 <= k < j && s[..j][k] == p[n - 1];
      PathIsListedInOrder(edges, s, p[..n], k);
    }
  }

  lemma {:induction false} ListedIsClearOfCycles<T(!new)>(edges: set<Edge<T>>, s: seq<T>, x: T)
    requires NoRepeats(s) && DependenciesFirst(edges, s) && x in s
    ensures !DependsOnCycle(edges, x)
  {
    if DependsOnCycle(edges, x) {
      var p :| Path(edges, p) && OnCycle(edges, p[0]) && p[|p| - 1] == x;
      var j :| 0 <= j < |s| && s[j] == x;
      PathIsListedInOrder(edges, s, p, j);
      var i :| 0 <= i <= j && s[i] == p[0];
      var loop :| Path(edges, loop) && |loop| > 1 && loop[0] == p[0] && loop[|loop| - 1] == p[0];
      PathIsListedInOrder(edges, s, loop, i);
      assert false;
    }
  }

  /** What a stalled, ordered, repeat-free listing says about each task. */
  lemma {:induction false} UnlistedExactly<T(!new)>(edges: set<Edge<T>>, ids: set<T>, s: seq<T>, x: T)
    requires Within(edges, ids) && Stalled(edges, ids, s)
    requires NoRepeats(s) && DependenciesFirst(edges, s)
    requires x in ids
    ensures x !in s <==> DependsOnCycle(edges, x)
  {
    if x in s { ListedIsClearOfCycles(edges, s, x); } else { UnlistedDependsOnCycle(edges, ids, s, x); }
  }

  /** And about the whole graph: it is short exactly when there is a cycle. */
  lemma {:induction false} ShortExactlyOnCycle<T(!new)>(edges: set<Edge<T>>, ids: set<T>, s: seq<T>)
    requires Within(edges, ids) && Stalled(edges, ids, s)
    requires NoRepeats(s) && DependenciesFirst(edges, s) && forall x :: x in s ==> x in ids
    ensures |s| <= |ids|
    ensures |s| < |ids| <==> exists c :: OnCycle(edges, c)
  {
    NoRepeatsBound(s, ids);
    if |s| < |ids| {
      var x := SomeUnlisted(ids, s);
      UnlistedDependsOnCycle(edges, ids, s, x);
    } else {
      forall c ensures !OnCycle(edges, c) {
        if OnCycle(edges, c) {
          CycleNodeUnlisted(edges, ids, s, c);
          NoRepeatsBound(s, ids - {c});
        }
      }
    }
  }

  lemma {:induction false} SomeUnlisted<T(!new)>(ids: set<T>, s: seq<T>) returns (x: T)
    requires |s| < |ids|
    ensures x in ids && x !in s
  {
    var listed := set y | y in s;
    ListedCount(s);
    if ids <= listed { Smaller(ids, listed); }
    x :| x in ids && x !in listed;
  }

  lemma {:induction false} Smaller<T(!new)>(a: set<T>, b: set<T>)
    requires a <= b
    ensures |a| <= |b|
    decreases a
  {
    if a != {} {
      var x :| x in a;
      Smaller(a - {x}, b - {x});
    }
  }

  lemma {:induction false} CycleNodeUnlisted<T(!new)>(edges: set<Edge<T>>, ids: set<T>, s: seq<T>, c: T)
    requires Within(edges, ids) && OnCycle(edges, c)
    requires NoRepeats(s) && DependenciesFirst(edges, s)
    ensures c in ids && c !in s
  {
    var p :| Path(edges, p) && |p| > 1 && p[0] == c && p[|p| - 1] == c;
    assert (p[0], p[1]) in edges;
    assert Path(edges, [c]) && [c][|[c]| - 1] == c;
    assert DependsOnCycle(edges, c);
    if c in s { ListedIsClearOfCycles(edges, s, c); }
  }

  lemma {:induction false} ListedCount<T(!new)>(s: seq<T>)
    ensures |set x | x in s| <= |s|
    ensures |set x | x in s| == |s| <==> NoRepeats(s)
    decreases |s|
  {
    if s != [] {
      var n := |s| - 1;
      var rest, all := set x | x in s[..n], set x | x in s;
      ListedCount(s[..n]);
      assert s == s[..n] + [s[n]];
      assert all == rest + {s[n]};
      if s[n] in s[..n] {
        assert all == rest;
        var i :| 0 <= i < n && s[..n][i] == s[n];
        assert !NoRepeats(s);
      } else if NoRepeats(s[..n]) {
        assert forall i :: 0 <= i < n ==> s[i] == s[..n][i] && s[i] in s[..n];
        assert NoRepeats(s);
      } else {
        var i, j :| 0 <= i < j < n && s[..n][i] == s[..n][j];
        assert s[i] == s[j];
      }
    }
  }
}
