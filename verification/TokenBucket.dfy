/** The token bucket over exact reals. Inside, time is measured in tokens: seconds times the refill rate. */
module TokenBucket {

  datatype Bucket = Bucket(capacity: real, tokens: real, last: real) {
    ghost predicate Valid() {
      0.0 < capacity && 0.0 <= tokens <= capacity
    }
  }

  function Min(a: real, b: real): real {
    if a <= b then a else b
  }

  function Refill(b: Bucket, now: real): Bucket {
    if now - b.last > 0.0 then b.(tokens := Min(b.capacity, b.tokens + (now - b.last)), last := now) else b
  }

  /** A request for nothing is granted without looking. */
  function Ask(b: Bucket, amount: real, now: real): (Bucket, bool) {
    if amount <= 0.0 then (b, true)
    else
      var r := Refill(b, now);
      if r.tokens >= amount then (r.(tokens := r.tokens - amount), true) else (r, false)
  }

  datatype Call = Allow(amount: real, at: real) | Poll(at: real)

  function Answer(b: Bucket, c: Call): (Bucket, bool) {
    match c
    case Allow(amount, at) => Ask(b, amount, at)
    case Poll(at) => (Refill(b, at), true)
  }

  /** What one call is granted. */
  function Given(b: Bucket, c: Call): real {
    if c.Allow? && Answer(b, c).1 && c.amount > 0.0 then c.amount else 0.0
  }

  function After(b: Bucket, calls: seq<Call>): Bucket
    decreases |calls|
  {
    if calls == [] then b else After(Answer(b, calls[0]).0, calls[1..])
  }

  /** The answers to the requests, polls left out. */
  function Decisions(b: Bucket, calls: seq<Call>): seq<bool>
    decreases |calls|
  {
    if calls == [] then []
    else (if calls[0].Allow? then [Answer(b, calls[0]).1] else []) + Decisions(Answer(b, calls[0]).0, calls[1..])
  }

  /** The amount granted over a sequence of calls. */
  function Granted(b: Bucket, calls: seq<Call>): real
    decreases |calls|
  {
    if calls == [] then 0.0 else Given(b, calls[0]) + Granted(Answer(b, calls[0]).0, calls[1..])
  }

  ghost predicate Ordered(calls: seq<Call>) {
    forall i, j :: 0 <= i < j < |calls| ==> calls[i].at <= calls[j].at
  }

  ghost predicate Within(calls: seq<Call>, from: real, end: real) {
    forall i :: 0 <= i < |calls| ==> from <= calls[i].at <= end
  }

  ghost predicate NotBefore(calls: seq<Call>, from: real) {
    forall i :: 0 <= i < |calls| ==> from <= calls[i].at
  }

  lemma {:induction false} TailTimes(calls: seq<Call>, from: real, end: real)
    requires calls != []
    ensures Within(calls, from, end) ==> Within(calls[1..], from, end)
    ensures NotBefore(calls, from) ==> NotBefore(calls[1..], from)
    ensures Ordered(calls) ==> Ordered(calls[1..]) && NotBefore(calls[1..], calls[0].at)
  {
    assert forall i :: 0 <= i < |calls[1..]| ==> calls[1..][i] == calls[i + 1];
  }

  /** Tokens stay between zero and the capacity over any calls at any times. */
  lemma {:induction false} TokensStayInRange(b: Bucket, calls: seq<Call>)
    requires b.Valid()
    ensures After(b, calls).Valid() && After(b, calls).capacity == b.capacity
    decreases |calls|
  {
    if calls != [] { TokensStayInRange(Answer(b, calls[0]).0, calls[1..]); }
  }

  /** Time spent between two refills only counts once: refilling on the way changes nothing at the end. */
  lemma {:induction false} RefillTwice(b: Bucket, t: real, u: real)
    requires b.Valid() && t <= u
    ensures Refill(Refill(b, t), u) == Refill(b, u)
  {
  }

  /** A refill at a time no later than any call changes neither answers nor grants. */
  lemma {:induction false} RefilledAlike(b: Bucket, calls: seq<Call>, t: real)
    requires b.Valid() && NotBefore(calls, t)
    ensures Decisions(Refill(b, t), calls) == Decisions(b, calls)
    ensures Granted(Refill(b, t), calls) == Granted(b, calls)
    decreases |calls|
  {
    if calls != [] {
      if calls[0].Allow? && calls[0].amount <= 0.0 {
        TailTimes(calls, t, t);
        RefilledAlike(b, calls[1..], t);
      } else {
        RefillTwice(b, t, calls[0].at);
      }
    }
  }

  // ---- The window bound ----

  lemma {:induction false} CallIsPaidFor(b: Bucket, c: Call, end: real)
    requires b.Valid() && b.last <= end && c.at <= end
    ensures var next := Answer(b, c).0;
            && next.Valid() && next.last <= end
            && Given(b, c) + next.tokens + (end - next.last) <= b.tokens + (end - b.last)
  {
  }

  /** Grants of a window are paid from what is left in the bucket and what flows in meanwhile. */
  lemma {:induction false} GrantedIsPaidFor(b: Bucket, calls: seq<Call>, from: real, end: real)
    requires b.Valid() && b.last <= end && Within(calls, from, end)
    ensures Granted(b, calls) <= b.tokens + (end - b.last)
    decreases |calls|
  {
    if calls != [] {
      CallIsPaidFor(b, calls[0], end);
      TailTimes(calls, from, end);
      GrantedIsPaidFor(Answer(b, calls[0]).0, calls[1..], from, end);
    }
  }

  lemma {:induction false} LastIsNotAhead(b: Bucket, calls: seq<Call>, from: real, end: real)
    requires b.Valid() && b.last <= end && Within(calls, from, end)
    ensures After(b, calls).last <= end
    decreases |calls|
  {
    if calls != [] {
      TailTimes(calls, from, end);
      LastIsNotAhead(Answer(b, calls[0]).0, calls[1..], from, end);
    }
  }

  lemma {:induction false} WindowFrom(b: Bucket, calls: seq<Call>, from: real, end: real)
    requires b.Valid() && b.last <= from <= end && Within(calls, from, end)
    ensures Granted(b, calls) <= b.capacity + (end - from)
  {
    RefilledAlike(b, calls, from);
    GrantedIsPaidFor(Refill(b, from), calls, from, end);
  }

  function InTokens(rate: real): real -> real {
    (seconds: real) => seconds * rate
  }

  /** Calls with their times converted. */
  function Convert(calls: seq<Call>, to: real -> real): (r: seq<Call>)
    ensures |r| == |calls|
    ensures forall k :: 0 <= k < |r| ==>
              r[k] == match calls[k] case Allow(amount, at) => Allow(amount, to(at)) case Poll(at) => Poll(to(at))
  {
    if calls == [] then []
    else
      var (init, c) := (calls[..|calls| - 1], calls[|calls| - 1]);
      Convert(init, to) + [match c case Allow(amount, at) => Allow(amount, to(at)) case Poll(at) => Poll(to(at))]
  }

  lemma {:induction false} Scale(rate: real, a: real, b: real)
    requires rate > 0.0
    ensures (b - a) * rate == b * rate - a * rate
    ensures a <= b ==> a * rate <= b * rate
    ensures a < b ==> a * rate < b * rate
  {
  }

  lemma {:induction false} WindowInTokenTime(b: Bucket, calls: seq<Call>, i: nat, j: nat)
    requires b.Valid() && Ordered(calls) && i < j <= |calls| && b.last <= calls[i].at
    ensures Granted(After(b, calls[..i]), calls[i..j]) <= b.capacity + (calls[j - 1].at - calls[i].at)
  {
    TokensStayInRange(b, calls[..i]);
    if i > 0 { assert Within(calls[..i], calls[0].at, calls[i].at); }
    LastIsNotAhead(b, calls[..i], calls[0].at, calls[i].at);
    assert forall k :: 0 <= k < j - i ==> calls[i..j][k] == calls[i + k];
    WindowFrom(After(b, calls[..i]), calls[i..j], calls[i].at, calls[j - 1].at);
  }

  lemma {:induction false} WindowConverted(b: Bucket, calls: seq<Call>, to: real -> real, i: nat, j: nat)
    requires b.Valid() && Ordered(calls) && i < j <= |calls| && b.last <= to(calls[i].at)
    requires forall t, u :: t <= u ==> to(t) <= to(u)
    ensures var converted := Convert(calls, to);
            Granted(After(b, converted[..i]), converted[i..j]) <= b.capacity + (to(calls[j - 1].at) - to(calls[i].at))
  {
    var converted := Convert(calls, to);
    assert forall k :: 0 <= k < |calls| ==> converted[k].at == to(calls[k].at);
    WindowInTokenTime(b, converted, i, j);
  }

  /** A conversion that turns a length of time into its inflow, whatever time it starts at. */
  ghost predicate Converts(to: real -> real, rate: real) {
    && (forall t, u :: t <= u ==> to(t) <= to(u))
    && (forall t, u :: to(u) - to(t) == (u - t) * rate)
  }

  lemma {:induction false} TimesConvert(rate: real, t: real, u: real)
    requires rate > 0.0
    ensures InTokens(rate)(u) - InTokens(rate)(t) == (u - t) * rate
    ensures t <= u ==> InTokens(rate)(t) <= InTokens(rate)(u)
  {
    Scale(rate, t, u);
  }

  lemma {:induction false} InTokensConverts(rate: real)
    requires rate > 0.0
    ensures Converts(InTokens(rate), rate)
  {
    var to := InTokens(rate);
    forall t: real, u: real ensures to(u) - to(t) == (u - t) * rate && (t <= u ==> to(t) <= to(u)) {
      TimesConvert(rate, t, u);
    }
  }

  /** Whatever came before, calls i to j are granted at most the capacity plus rate times the window's length. */
  lemma {:induction false} WindowBound(b: Bucket, calls: seq<Call>, to: real -> real, rate: real, i: nat, j: nat)
    requires b.Valid() && Converts(to, rate) && Ordered(calls) && i < j <= |calls|
    requires b.last <= to(calls[i].at)
    ensures var converted := Convert(calls, to);
            Granted(After(b, converted[..i]), converted[i..j]) <= b.capacity + (calls[j - 1].at - calls[i].at) * rate
  {
    WindowConverted(b, calls, to, i, j);
    assert to(calls[j - 1].at) - to(calls[i].at) == (calls[j - 1].at - calls[i].at) * rate;
  }

  /** The conversion the limiter uses is one. */
  lemma {:induction false} WindowBoundAtRate(
      b: Bucket, calls: seq<Call>, to: real -> real, rate: real, i: nat, j: nat)
    requires rate > 0.0 && to == InTokens(rate)
    requires b.Valid() && Ordered(calls) && i < j <= |calls| && b.last <= to(calls[i].at)
    ensures var converted := Convert(calls, to);
            Granted(After(b, converted[..i]), converted[i..j]) <= b.capacity + (calls[j - 1].at - calls[i].at) * rate
  {
    InTokensConverts(rate);
    assert Converts(to, rate);
    WindowBound(b, calls, to, rate, i, j);
  }

  // ---- Which requests are granted ----

  /** What is granted over the calls from position i on. */
  function GrantedFrom(b: Bucket, calls: seq<Call>, i: nat): real
    requires i <= |calls|
  {
    Granted(After(b, calls[..i]), calls[i..])
  }

  /** With x more at time t the bound over the window from call i would still hold. */
  ghost predicate WindowAllows(b: Bucket, calls: seq<Call>, i: nat, x: real, t: real)
    requires i < |calls|
  {
    x + GrantedFrom(b, calls, i) <= b.capacity + (t - calls[i].at)
  }

  /** No window up to time t is overdrawn by x more, nor is what was in the bucket to begin with. */
  ghost predicate Affordable(b: Bucket, calls: seq<Call>, x: real, t: real) {
    && x <= b.capacity
    && x + Granted(b, calls) <= b.tokens + (t - b.last)
    && AllWindowsAllow(b, calls, x, t)
  }

  ghost predicate AllWindowsAllow(b: Bucket, calls: seq<Call>, x: real, t: real) {
    forall i :: 0 <= i < |calls| ==> WindowAllows(b, calls, i, x, t)
  }

  lemma {:induction false} WindowTail(b: Bucket, calls: seq<Call>, i: nat, x: real, t: real)
    requires calls != [] && i + 1 < |calls|
    ensures var next := Answer(b, calls[0]).0;
            next.capacity == b.capacity ==>
              (WindowAllows(b, calls, i + 1, x, t) <==> WindowAllows(next, calls[1..], i, x, t))
  {
    assert calls[..i + 1][0] == calls[0] && calls[..i + 1][1..] == calls[1..][..i];
    assert calls[i + 1..] == calls[1..][i..];
  }

  lemma {:induction false} WholeWindow(b: Bucket, calls: seq<Call>, x: real, t: real)
    requires calls != []
    ensures WindowAllows(b, calls, 0, x, t) <==> x + Granted(b, calls) <= b.capacity + (t - calls[0].at)
  {
    assert calls[..0] == [] && calls[0..] == calls;
  }

  lemma {:induction false} WindowsTail(b: Bucket, calls: seq<Call>, x: real, t: real)
    requires b.Valid() && calls != []
    ensures AllWindowsAllow(b, calls, x, t) <==>
            WindowAllows(b, calls, 0, x, t) && AllWindowsAllow(Answer(b, calls[0]).0, calls[1..], x, t)
  {
    var (rest, next) := (calls[1..], Answer(b, calls[0]).0);
    if AllWindowsAllow(b, calls, x, t) {
      forall i: nat | i < |rest| ensures WindowAllows(next, rest, i, x, t) {
        assert WindowAllows(b, calls, i + 1, x, t);
        WindowTail(b, calls, i, x, t);
      }
    }
    if WindowAllows(b, calls, 0, x, t) && AllWindowsAllow(next, rest, x, t) {
      forall i: nat | i < |calls| ensures WindowAllows(b, calls, i, x, t) {
        if i > 0 {
          assert WindowAllows(next, rest, i - 1, x, t);
          WindowTail(b, calls, i - 1, x, t);
        }
      }
    }
  }

  /** One call forward: the first window and the initial tokens together make up the tokens after it. */
  lemma {:induction false} AffordableTail(b: Bucket, calls: seq<Call>, x: real, t: real)
    requires b.Valid() && calls != [] && Ordered(calls) && b.last <= calls[0].at && Within(calls, calls[0].at, t)
    ensures Affordable(b, calls, x, t) <==> Affordable(Answer(b, calls[0]).0, calls[1..], x, t)
  {
    var (c, rest, next) := (calls[0], calls[1..], Answer(b, calls[0]).0);
    WholeWindow(b, calls, x, t);
    WindowsTail(b, calls, x, t);
    assert Granted(b, calls) == Given(b, c) + Granted(next, rest);
    if rest != [] {
      assert rest[0] == calls[1];
      WholeWindow(next, rest, x, t);
      assert AllWindowsAllow(next, rest, x, t) ==> WindowAllows(next, rest, 0, x, t);
    }
  }

  /** The tokens on hand at time t are the most that no window forbids. */
  lemma {:induction false} LevelExactly(b: Bucket, calls: seq<Call>, x: real, t: real)
    requires b.Valid() && Ordered(calls) && Within(calls, b.last, t) && b.last <= t
    ensures x <= Refill(After(b, calls), t).tokens <==> Affordable(b, calls, x, t)
    decreases |calls|
  {
    if calls != [] {
      assert forall i :: 0 <= i < |calls| ==> calls[0].at <= calls[i].at;
      AffordableTail(b, calls, x, t);
      TailTimes(calls, calls[0].at, t);
      LevelExactly(Answer(b, calls[0]).0, calls[1..], x, t);
    }
  }

  /** The limiter refuses nothing it could grant: a request is refused exactly when it would overdraw some window. */
  lemma {:induction false} GrantedExactly(b: Bucket, calls: seq<Call>, amount: real, t: real)
    requires b.Valid() && Ordered(calls) && Within(calls, b.last, t) && b.last <= t
    ensures Ask(After(b, calls), amount, t).1 <==> amount <= 0.0 || Affordable(b, calls, amount, t)
  {
    LevelExactly(b, calls, amount, t);
  }

  // ---- Polls and refused requests leave no trace ----

  function WithoutPolls(calls: seq<Call>): seq<Call> {
    if calls == [] then []
    else (if calls[0].Poll? then [] else [calls[0]]) + WithoutPolls(calls[1..])
  }

  /** Polling anywhere changes no answer to any request. */
  lemma {:induction false} PollsLeaveNoTrace(b: Bucket, calls: seq<Call>)
    requires b.Valid() && Ordered(calls)
    ensures Decisions(b, calls) == Decisions(b, WithoutPolls(calls))
    decreases |calls|
  {
    if calls != [] {
      var (c, rest) := (calls[0], calls[1..]);
      TailTimes(calls, c.at, c.at);
      if c.Poll? {
        RefilledAlike(b, rest, c.at);
        PollsLeaveNoTrace(b, rest);
        assert WithoutPolls(calls) == WithoutPolls(rest);
      } else {
        PollsLeaveNoTrace(Answer(b, c).0, rest);
        assert WithoutPolls(calls)[1..] == WithoutPolls(rest);
      }
    }
  }

  /** Two sequences of calls that differ in their polls alone get the same answers. */
  lemma {:induction false} PollsAnywhere(b: Bucket, a: seq<Call>, c: seq<Call>)
    requires b.Valid() && Ordered(a) && Ordered(c) && WithoutPolls(a) == WithoutPolls(c)
    ensures Decisions(b, a) == Decisions(b, c)
  {
    PollsLeaveNoTrace(b, a);
    PollsLeaveNoTrace(b, c);
  }

  /** A refused request costs nothing: later answers are those of a bucket that was never asked. */
  lemma {:induction false} RefusalLeavesNoTrace(b: Bucket, amount: real, t: real, calls: seq<Call>)
    requires b.Valid() && !Ask(b, amount, t).1 && NotBefore(calls, t)
    ensures Decisions(Ask(b, amount, t).0, calls) == Decisions(b, calls)
  {
    RefilledAlike(b, calls, t);
  }

  class TokenBucketRateLimiter {
    const capacity: real
    const rate: real
    var tokens: real
    var last: real

    ghost function State(): Bucket
      reads this
    {
      Bucket(capacity, tokens, last * rate)
    }

    ghost predicate Valid()
      reads this
    {
      rate > 0.0 && State().Valid()
    }

    /** A full bucket; `now` is the clock. */
    constructor (capacity: real, rate: real, now: real)
      requires capacity > 0.0 && rate > 0.0
      ensures State() == Bucket(capacity, capacity, now * rate) && Valid() && this.rate == rate
    {
      this.capacity, this.rate := capacity, rate;
      tokens, last := capacity, now;
    }

    method RefillNow(now: real)
      requires Valid()
      modifies this`tokens, this`last
      ensures State() == Refill(old(State()), now * rate) && Valid()
    {
      Scale(rate, last, now);
      Scale(rate, now, last);
      var elapsed := now - last;
      if elapsed > 0.0 {
        var added := elapsed * rate;
        tokens := Min(capacity, tokens + added);
        last := now;
      }
    }

    method AllowRequest(amount: real, now: real) returns (granted: bool)
      requires Valid()
      modifies this`tokens, this`last
      ensures (State(), granted) == Ask(old(State()), amount, now * rate) && Valid()
    {
      if amount <= 0.0 { return true; }
      RefillNow(now);
      ghost var refilled := State();
      if tokens >= amount {
        tokens := tokens - amount;
        assert State() == refilled.(tokens := refilled.tokens - amount);
        return true;
      }
      return false;
    }

    method GetAvailableTokens(now: real) returns (available: real)
      requires Valid()
      modifies this`tokens, this`last
      ensures State() == Refill(old(State()), now * rate) && available == State().tokens && Valid()
    {
      RefillNow(now);
      available := tokens;
    }
  }
}
