/**
 Colon-joined records: the text that is hashed for transition claims and for artifact keys.
 Joining loses the field boundaries unless at most one fixed field may hold a colon.
 */
module ColonJoin {

  predicate ColonFree(s: string) {
    ':' !in s
  }

  function Join(fields: seq<string>): string
    requires |fields| > 0
  {
    if |fields| == 1 then fields[0] else fields[0] + ":" + Join(fields[1..])
  }

  /** Every field except number k is free of colons. */
  predicate OnlyFieldMayHoldColons(fields: seq<string>, k: nat) {
    forall i :: 0 <= i < |fields| && i != k ==> ColonFree(fields[i])
  }

  lemma {:induction false} HeadSplit(a: string, x: string, b: string, y: string)
    requires ColonFree(a) && ColonFree(b)
    requires a + ":" + x == b + ":" + y
    ensures a == b && x == y
  {
    var s, t := a + ":" + x, b + ":" + y;
    assert s[|a|] == ':' && t[|b|] == ':';
    assert forall i :: 0 <= i < |a| ==> s[i] == a[i];
    assert forall i :: 0 <= i < |b| ==> t[i] == b[i];
    assert |a| == |b|;
    assert a == s[..|a|] && b == t[..|b|];
    assert x == s[|a| + 1..] && y == t[|b| + 1..];
  }

  lemma {:induction false} TailSplit(x: string, a: string, y: string, b: string)
    requires ColonFree(a) && ColonFree(b)
    requires x + ":" + a == y + ":" + b
    ensures a == b && x == y
  {
    var s, t := x + ":" + a, y + ":" + b;
    assert s[|x|] == ':' && t[|y|] == ':';
    assert forall i :: 0 <= i < |a| ==> s[|x| + 1 + i] == a[i];
    assert forall i :: 0 <= i < |b| ==> t[|y| + 1 + i] == b[i];
    assert |x| == |y|;
    assert x == s[..|x|] && y == t[..|y|];
    assert a == s[|x| + 1..] && b == t[|y| + 1..];
  }

  lemma {:induction false} JoinPeelsLast(fields: seq<string>)
    requires |fields| > 1
    ensures Join(fields) == Join(fields[..|fields| - 1]) + ":" + fields[|fields| - 1]
  {
    var n := |fields| - 1;
    if n == 1 {
      assert fields[1..] == [fields[1]];
    } else {
      JoinPeelsLast(fields[1..]);
      assert fields[1..][..n - 1] == fields[..n][1..];
      assert Join(fields[..n]) == fields[0] + ":" + Join(fields[..n][1..]);
    }
  }

  /** Two records of the same width join to the same text only if they are equal. */
  lemma {:induction false} JoinInjective(f: seq<string>, g: seq<string>, k: nat)
    requires |f| == |g| > k
    requires OnlyFieldMayHoldColons(f, k) && OnlyFieldMayHoldColons(g, k)
    requires Join(f) == Join(g)
    ensures f == g
    decreases |f|
  {
    var n := |f| - 1;
    if n == 0 {
    } else if k > 0 {
      HeadSplit(f[0], Join(f[1..]), g[0], Join(g[1..]));
      JoinInjective(f[1..], g[1..], k - 1);
      assert f == [f[0]] + f[1..] && g == [g[0]] + g[1..];
    } else {
      JoinPeelsLast(f);
      JoinPeelsLast(g);
      TailSplit(Join(f[..n]), f[n], Join(g[..n]), g[n]);
      JoinInjective(f[..n], g[..n], 0);
      assert f == f[..n] + [f[n]] && g == g[..n] + [g[n]];
    }
  }

  /** Colons stand only in the fields whose numbers are in `allowed`. */
  predicate ColonsOnlyIn(fields: seq<string>, allowed: set<nat>) {
    forall i :: 0 <= i < |fields| && i !in allowed ==> ColonFree(fields[i])
  }

  /** The text the join puts between fields i and j: a colon, and the fields in between each with another. */
  function Between(fields: seq<string>, i: nat, j: nat): (text: string)
    requires i < j < |fields|
    ensures text != ""
    decreases j - i
  {
    if j == i + 1 then ":" else ":" + fields[i + 1] + Between(fields, i + 1, j)
  }

  lemma {:induction false} JoinConsed(head: string, rest: seq<string>)
    requires |rest| > 0
    ensures Join([head] + rest) == head + ":" + Join(rest)
  {
    assert ([head] + rest)[1..] == rest;
  }

  /** What the join makes of the fields after number j. */
  function After(fields: seq<string>, j: nat): string
    requires j < |fields|
  {
    if j == |fields| - 1 then "" else ":" + Join(fields[j + 1..])
  }

  lemma {:induction false} Regroup(a: string, b: string, c: string, d: string)
    ensures a + (b + (c + d)) == (a + b + c) + d
  {
  }

  /** A join from field i on, seen as field i, the text between, field j, and what follows. */
  lemma {:induction false} JoinAround(fields: seq<string>, i: nat, j: nat)
    requires i < j < |fields|
    ensures Join(fields[i..]) == fields[i] + (Between(fields, i, j) + (fields[j] + After(fields, j)))
    decreases j - i
  {
    assert fields[i..] == [fields[i]] + fields[i + 1..];
    JoinConsed(fields[i], fields[i + 1..]);
    if j == i + 1 {
      JoinFrom(fields, j);
      assert fields[i] + ":" + Join(fields[j..]) == fields[i] + (":" + Join(fields[j..]));
    } else {
      JoinAround(fields, i + 1, j);
      Regroup(":", fields[i + 1], Between(fields, i + 1, j), fields[j] + After(fields, j));
      assert fields[i] + ":" + Join(fields[i + 1..]) == fields[i] + (":" + Join(fields[i + 1..]));
    }
  }

  lemma {:induction false} JoinFrom(fields: seq<string>, j: nat)
    requires j < |fields|
    ensures Join(fields[j..]) == fields[j] + After(fields, j)
  {
    if j < |fields| - 1 {
      assert fields[j..] == [fields[j]] + fields[j + 1..];
      JoinConsed(fields[j], fields[j + 1..]);
    } else {
      assert fields[j..] == [fields[j]];
    }
  }

  lemma {:induction false} BetweenUnchanged(f: seq<string>, g: seq<string>, i: nat, j: nat)
    requires i < j < |f| == |g| && forall k :: i < k < j ==> f[k] == g[k]
    ensures Between(f, i, j) == Between(g, i, j)
    decreases j - i
  {
    if j > i + 1 { BetweenUnchanged(f, g, i + 1, j); }
  }

  /** Equal joins of tails under equal beginnings are equal joins. */
  lemma {:induction false} SamePrefix(f: seq<string>, g: seq<string>, i: nat)
    requires i < |f| == |g| && f[..i] == g[..i] && Join(f[i..]) == Join(g[i..])
    ensures Join(f) == Join(g)
    decreases i
  {
    if i == 0 {
      assert f[0..] == f && g[0..] == g;
    } else {
      var k := i - 1;
      assert f[k] == f[..i][k] && g[k] == g[..i][k];
      assert f[k..] == [f[k]] + f[i..] && g[k..] == [g[k]] + g[i..];
      JoinConsed(f[k], f[i..]);
      JoinConsed(g[k], g[i..]);
      assert f[..k] == f[..i][..k] && g[..k] == g[..i][..k];
      SamePrefix(f, g, k);
    }
  }

  /** The record with field i emptied and field j set to the text between them, and the other way round. */
  function Shifted(fields: seq<string>, i: nat, j: nat, early: bool): (r: seq<string>)
    requires i < j < |fields|
    ensures |r| == |fields|
  {
    var w := Between(fields, i, j);
    fields[i := if early then w else ""][j := if early then "" else w]
  }

  /** Any two fields collide, however far apart and whatever the others hold, once both may hold colons. */
  lemma {:induction false} ShiftedCollide(fields: seq<string>, i: nat, j: nat)
    requires i < j < |fields|
    ensures Join(Shifted(fields, i, j, true)) == Join(Shifted(fields, i, j, false))
    ensures Shifted(fields, i, j, true) != Shifted(fields, i, j, false)
  {
    var w, f, g := Between(fields, i, j), Shifted(fields, i, j, true), Shifted(fields, i, j, false);
    assert f[i] == w && g[i] == "";
    BetweenUnchanged(f, fields, i, j);
    BetweenUnchanged(g, fields, i, j);
    JoinAround(f, i, j);
    JoinAround(g, i, j);
    assert f[j + 1..] == g[j + 1..];
    assert Join(f[i..]) == w + (w + ("" + After(f, j))) && Join(g[i..]) == "" + (w + (w + After(g, j)));
    assert f[..i] == g[..i];
    SamePrefix(f, g, i);
  }

  lemma {:induction false} ShiftedStaysIn(fields: seq<string>, i: nat, j: nat, early: bool, allowed: set<nat>)
    requires i < j < |fields| && ColonsOnlyIn(fields, {}) && i in allowed && j in allowed
    ensures ColonsOnlyIn(Shifted(fields, i, j, early), allowed)
  {
  }

  ghost predicate InjectiveOn(n: nat, allowed: set<nat>)
    requires n > 0
  {
    forall f, g :: |f| == |g| == n && ColonsOnlyIn(f, allowed) && ColonsOnlyIn(g, allowed) && Join(f) == Join(g) ==>
      f == g
  }

  lemma {:induction false} TwoMembers(s: set<nat>, i: nat, k: nat)
    requires i in s && k in s && i != k
    ensures |s| > 1
  {
    assert |s - {k}| == |s| - 1 && |s - {k} - {i}| == |s| - 2;
  }

  /** Two different numbers of a set with more than one. */
  lemma {:induction false} TwoOf(s: set<nat>) returns (i: nat, j: nat)
    requires |s| > 1
    ensures i in s && j in s && i < j
  {
    var a :| a in s;
    assert |s - {a}| > 0;
    var b :| b in s - {a};
    i, j := if a < b then a else b, if a < b then b else a;
  }

  /** Records of n fields with colons allowed in some of them join injectively exactly when that is at most one. */
  lemma {:induction false} InjectiveExactly(n: nat, allowed: set<nat>)
    requires n > 0 && forall i :: i in allowed ==> i < n
    ensures InjectiveOn(n, allowed) <==> |allowed| <= 1
  {
    if |allowed| <= 1 {
      var k: nat := 0;
      if allowed != {} { k :| k in allowed; }
      forall f, g | |f| == |g| == n && ColonsOnlyIn(f, allowed) && ColonsOnlyIn(g, allowed) && Join(f) == Join(g)
        ensures f == g
      {
        forall i | 0 <= i < n && i != k ensures ColonFree(f[i]) && ColonFree(g[i]) {
          if i in allowed { TwoMembers(allowed, i, k); }
        }
        JoinInjective(f, g, k);
      }
    } else {
      var i, j := TwoOf(allowed);
      var blank := seq(n, _ => "");
      ShiftedCollide(blank, i, j);
      ShiftedStaysIn(blank, i, j, true, allowed);
      ShiftedStaysIn(blank, i, j, false, allowed);
    }
  }
}
