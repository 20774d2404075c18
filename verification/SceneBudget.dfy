/** Scene windows and word budgets of the script generator, against the pacing audit of the validator. */
module SceneBudget {
  import opened Common

  // ---- The generator's budgets ----

  datatype Scene = Scene(start: real, end: real, budget: int)

  function Max(a: real, b: real): real {
    if a >= b then a else b
  }

  function MaxInt(a: int, b: int): int {
    if a >= b then a else b
  }

  /** Rounding to one digit is any nearest tenth. */
  predicate IsRounded(r: real, x: real) {
    r * 10.0 == (r * 10.0).Floor as real && -0.05 <= r - x <= 0.05
  }

  /** Words that fit a duration; the pace is in words per second. */
  function Budget(duration: real, pace: real, least: int): int {
    MaxInt((duration * pace).Floor, least)
  }

  /** The three scenes; the rounded shares of the runtime are parameters. */
  function SceneBudgets(runtime: int, pace: real, hookShare: real, bodyShare: real, ctaShare: real): seq<Scene> {
    var (hook, body, cta) := (Max(hookShare, 5.0), Max(bodyShare, 10.0), Max(ctaShare, 5.0));
    [ Scene(0.0, hook, Budget(hook, pace, 6)),
      Scene(hook, hook + body, Budget(body, pace, 12)),
      Scene(hook + body, runtime as real, Budget(cta, pace, 8)) ]
  }

  /** The shares are rounded as the generator rounds them. */
  ghost predicate Shares(runtime: int, hookShare: real, bodyShare: real, ctaShare: real) {
    && IsRounded(hookShare, runtime as real * 0.2)
    && IsRounded(bodyShare, runtime as real * 0.45)
    && IsRounded(ctaShare, runtime as real - (Max(hookShare, 5.0) + Max(bodyShare, 10.0)))
  }

  // ---- The validator's audit ----

  datatype Row = Row(start: real, end: real, words: int)

  datatype Violation = InvalidDuration(row: int) | WordCountOverflow(row: int) | PacingDragging(row: int)
      | TimecodeOverlap(row: int) | RuntimeMismatch

  function Ceiling(duration: real, pace: real): int {
    (duration * pace * 1.15).Floor + 1
  }

  function PacingOf(k: int, row: Row, pace: real): seq<Violation> {
    PacingIn(k, row.words, row.end - row.start, pace)
  }

  function PacingIn(k: int, words: int, duration: real, pace: real): seq<Violation> {
    if duration <= 0.0 then [InvalidDuration(k)]
    else if words > Ceiling(duration, pace) then [WordCountOverflow(k)]
    else if words < MaxInt((duration * pace * 0.5).Floor, 2) && duration >= 5.0 then [PacingDragging(k)]
    else []
  }

  /** What the audit reports on row k, after a row that ended at `prevEnd`. */
  function RowAudit(k: int, row: Row, prevEnd: real, pace: real): seq<Violation> {
    (if row.start < prevEnd - 0.01 then [TimecodeOverlap(k)] else []) + PacingOf(k, row, pace)
  }

  function PrevEnd(rows: seq<Row>, n: nat): real
    requires n <= |rows|
  {
    if n == 0 then 0.0 else rows[n - 1].end
  }

  function Abs(x: real): real {
    if x < 0.0 then -x else x
  }

  /** The runtime check and the first n rows. */
  function Audits(rows: seq<Row>, runtime: int, pace: real, n: nat): seq<Violation>
    requires n <= |rows|
  {
    if n > 0 then Audits(rows, runtime, pace, n - 1) + RowAudit(n, rows[n - 1], PrevEnd(rows, n - 1), pace)
    else if Abs(PrevEnd(rows, |rows|) - runtime as real) > runtime as real * 0.15 + 2.0 then [RuntimeMismatch]
    else []
  }

  /** What is wrong with the pacing of a row that lasts d seconds. */
  predicate Paced(words: int, d: real, pace: real, k: int, v: Violation) {
    var tooMany := words > (d * pace * 1.15).Floor + 1;
    match v
    case InvalidDuration(at) => at == k && d <= 0.0
    case WordCountOverflow(at) => at == k && d > 0.0 && tooMany
    case PacingDragging(at) => at == k && d >= 5.0 && !tooMany && (words < 2 || words < (d * pace * 0.5).Floor)
    case _ => false
  }

  /** The violations of row k, counted from one. */
  predicate Reported(rows: seq<Row>, pace: real, v: Violation, k: int) {
    && 0 < k <= |rows|
    && (Paced(rows[k - 1].words, rows[k - 1].end - rows[k - 1].start, pace, k, v) ||
        (v == TimecodeOverlap(k) && rows[k - 1].start < (if k == 1 then 0.0 else rows[k - 2].end) - 0.01))
  }

  /** The runtime is off by more than 15 percent and two seconds. */
  predicate OffTarget(rows: seq<Row>, runtime: int) {
    var (end, target) := (if rows == [] then 0.0 else rows[|rows| - 1].end, runtime as real);
    end > target + (target * 0.15 + 2.0) || end < target - (target * 0.15 + 2.0)
  }

  lemma {:induction false} PacingReports(words: int, d: real, pace: real, v: Violation, k: int)
    ensures v in PacingIn(k, words, d, pace) <==> Paced(words, d, pace, k, v)
  {
  }

  lemma {:induction false} RowReports(rows: seq<Row>, pace: real, v: Violation, k: nat)
    requires 0 < k <= |rows|
    ensures v in RowAudit(k, rows[k - 1], PrevEnd(rows, k - 1), pace) <==> Reported(rows, pace, v, k)
  {
    PacingReports(rows[k - 1].words, rows[k - 1].end - rows[k - 1].start, pace, v, k);
  }

  lemma {:induction false} RowsReport(rows: seq<Row>, runtime: int, pace: real, v: Violation, n: nat)
    requires n <= |rows|
    ensures v in Audits(rows, runtime, pace, n) <==>
            (v == RuntimeMismatch && OffTarget(rows, runtime)) ||
            exists k {:trigger Reported(rows, pace, v, k)} :: k <= n && Reported(rows, pace, v, k)
  {
    if n > 0 {
      RowsReport(rows, runtime, pace, v, n - 1);
      RowReports(rows, pace, v, n);
    }
  }

  method AuditTiming(rows: seq<Row>, runtime: int, wpm: real) returns (violations: seq<Violation>)
    ensures violations == Audits(rows, runtime, wpm / 60.0, |rows|)
  {
    violations := [];
    var actual := if rows != [] then rows[|rows| - 1].end else 0.0;
    if Abs(actual - runtime as real) > runtime as real * 0.15 + 2.0 { violations := [RuntimeMismatch]; }
    var prevEnd := 0.0;
    for i := 0 to |rows|
      invariant prevEnd == PrevEnd(rows, i) && violations == Audits(rows, runtime, wpm / 60.0, i)
    {
      var found := AuditRow(i + 1, rows[i], prevEnd, wpm / 60.0);
      violations := violations + found;
      prevEnd := rows[i].end;
    }
  }

  method AuditRow(k: int, row: Row, prevEnd: real, pace: real) returns (found: seq<Violation>)
    ensures found == RowAudit(k, row, prevEnd, pace)
  {
    found := [];
    if row.start < prevEnd - 0.01 { found := [TimecodeOverlap(k)]; }
    found := found + PacingOf(k, row, pace);
  }

  // ---- Dialogue fitted to a budget ----

  /** A candidate sentence as split into words, before and after its dashes are replaced. */
  datatype Sentence = Sentence(raw: seq<string>, clean: seq<string>)

  function StripRight(word: string): string {
    if word != "" && word[|word| - 1] in ",;: -" then StripRight(word[..|word| - 1]) else word
  }

  function StripRightAll(words: seq<string>): (r: seq<string>)
    ensures |r| <= |words|
  {
    if words == [] then []
    else
      var n := |words| - 1;
      var last := StripRight(words[n]);
      if last == "" then StripRightAll(words[..n]) else words[..n] + [last]
  }

  predicate EndsSentence(word: string) {
    word != "" && word[|word| - 1] in ".!?"
  }

  /** The first n words, stripped of trailing punctuation and closed with a full stop. */
  function Truncated(words: seq<string>, n: nat): (r: seq<string>)
    requires 0 < n <= |words|
    ensures 0 < |r| <= n
  {
    var t := StripRightAll(words[..n]);
    if t == [] then ["."]
    else if EndsSentence(t[|t| - 1]) then t
    else t[..|t| - 1] + [t[|t| - 1] + "."]
  }

  /** Trailing commas, semicolons, colons, spaces and dashes. */
  predicate Strippable(text: string) {
    forall k :: 0 <= k < |text| ==> text[k] in {',', ';', ':', ' ', '-'}
  }

  /** What is left of a word: its trailing punctuation is gone and nothing else. */
  predicate Stripped(word: string, rest: string) {
    && rest <= word && Strippable(word[|rest|..])
    && (rest != "" ==> rest[|rest| - 1] !in {',', ';', ':', ' ', '-'})
  }

  lemma {:induction false} StripRightExactly(word: string)
    ensures Stripped(word, StripRight(word))
  {
    if word != "" && word[|word| - 1] in ",;: -" {
      StripRightExactly(word[..|word| - 1]);
      var rest := StripRight(word[..|word| - 1]);
      assert word[|rest|..] == word[..|word| - 1][|rest|..] + [word[|word| - 1]];
    }
  }

  /** The first words, up to the last that is more than trailing punctuation, and of that the rest. */
  ghost predicate StrippedAll(words: seq<string>, rest: seq<string>) {
    && |rest| <= |words|
    && (forall k :: |rest| <= k < |words| ==> Strippable(words[k]))
    && (rest != [] ==>
          var m := |rest| - 1;
          rest[..m] == words[..m] && rest[m] != "" && Stripped(words[m], rest[m]))
  }

  lemma {:induction false} StripAllExactly(words: seq<string>)
    ensures StrippedAll(words, StripRightAll(words))
  {
    if words != [] {
      var n := |words| - 1;
      StripRightExactly(words[n]);
      StripAllExactly(words[..n]);
    }
  }

  /** A piece of a sentence: its stripped words, the last one closed with a full stop unless it ends a sentence. */
  ghost predicate Closed(words: seq<string>, piece: seq<string>) {
    exists rest :: StrippedAll(words, rest) &&
      if rest == [] then piece == ["."]
      else
        var (m, last) := (|rest| - 1, rest[|rest| - 1]);
        |piece| == |rest| && piece[..m] == rest[..m] &&
        piece[m] == if last != "" && last[|last| - 1] in {'.', '!', '?'} then last else last + "."
  }

  lemma {:induction false} ClosedBy(words: seq<string>, rest: seq<string>, piece: seq<string>)
    requires StrippedAll(words, rest)
    requires if rest == [] then piece == ["."]
             else piece == rest[..|rest| - 1] + [Ended(rest[|rest| - 1])]
    ensures Closed(words, piece)
  {
  }

  function Ended(word: string): string {
    if EndsSentence(word) then word else word + "."
  }

  lemma {:induction false} TruncatedEnds(words: seq<string>, n: nat)
    requires 0 < n <= |words|
    ensures var t := StripRightAll(words[..n]);
            Truncated(words, n) == if t == [] then ["."] else t[..|t| - 1] + [Ended(t[|t| - 1])]
  {
  }

  /** A truncated sentence is its first words, closed. */
  lemma {:induction false} TruncatedIsClosed(words: seq<string>, n: nat)
    requires 0 < n <= |words|
    ensures Closed(words[..n], Truncated(words, n))
  {
    StripAllExactly(words[..n]);
    TruncatedEnds(words, n);
    ClosedBy(words[..n], StripRightAll(words[..n]), Truncated(words, n));
  }

  function CountWords(dialogue: seq<seq<string>>): nat {
    if dialogue == [] then 0 else CountWords(dialogue[..|dialogue| - 1]) + |dialogue[|dialogue| - 1]|
  }

  /** The first n sentences, cleaned, and how many words they have. */
  function Whole(sentences: seq<Sentence>, n: nat): seq<seq<string>>
    requires n <= |sentences|
  {
    if n == 0 then [] else Whole(sentences, n - 1) + [sentences[n - 1].clean]
  }

  function WholeWords(sentences: seq<Sentence>, n: nat): (count: nat)
    requires n <= |sentences|
  {
    if n == 0 then 0 else WholeWords(sentences, n - 1) + |sentences[n - 1].clean|
  }

  /** How many whole sentences are taken: up to the first that overruns the target by more than two words. */
  function Taken(sentences: seq<Sentence>, target: int, n: nat): (m: nat)
    requires n <= |sentences|
    ensures n <= m <= |sentences|
    ensures forall k :: n < k <= m ==> WholeWords(sentences, k) <= target + 2
    ensures m < |sentences| ==> WholeWords(sentences, m + 1) > target + 2
    decreases |sentences| - n
  {
    if n < |sentences| && WholeWords(sentences, n + 1) <= target + 2 then Taken(sentences, target, n + 1) else n
  }

  /** Whole sentences, then a piece of the next if at least four words are left; with nothing taken, the first
      sentence as it came. */
  function Fit(sentences: seq<Sentence>, target: int): Option<seq<seq<string>>> {
    var n := Taken(sentences, target, 0);
    var left := target - WholeWords(sentences, n);
    if n < |sentences| && left >= 4 then Some(Whole(sentences, n) + [Truncated(sentences[n].clean, left)])
    else if n > 0 then Some(Whole(sentences, n))
    else if sentences == [] then None
    else Some([sentences[0].raw])
  }

  lemma {:induction false} WholeCount(sentences: seq<Sentence>, n: nat)
    requires n <= |sentences|
    ensures CountWords(Whole(sentences, n)) == WholeWords(sentences, n)
  {
    if n > 0 {
      WholeCount(sentences, n - 1);
      assert Whole(sentences, n)[..|Whole(sentences, n)| - 1] == Whole(sentences, n - 1);
    }
  }

  /** The fallback on the first raw sentence is taken only for a target under four words. */
  predicate FallsBack(sentences: seq<Sentence>, target: int) {
    sentences != [] && target < 4 && |sentences[0].clean| > target + 2
  }

  /** Fitted dialogue is at most two words over target, except by the fallback. */
  lemma {:induction false} FitIsWithinTwo(sentences: seq<Sentence>, target: int)
    requires sentences != []
    ensures Fit(sentences, target).Some?
    ensures if FallsBack(sentences, target) then Fit(sentences, target).value == [sentences[0].raw]
            else CountWords(Fit(sentences, target).value) <= target + 2
  {
    var n := Taken(sentences, target, 0);
    WholeCount(sentences, n);
    assert WholeWords(sentences, 0) == 0 && WholeWords(sentences, 1) == |sentences[0].clean|;
    var left := target - WholeWords(sentences, n);
    if n < |sentences| && left >= 4 {
      var piece := Truncated(sentences[n].clean, left);
      assert (Whole(sentences, n) + [piece])[..|Whole(sentences, n)|] == Whole(sentences, n);
    }
  }

  method FitDialogue(sentences: seq<Sentence>, target: int) returns (r: Option<seq<seq<string>>>)
    ensures r == Fit(sentences, target)
  {
    var constructed: seq<seq<string>> := [];
    var count := 0;
    var i := 0;
    while i < |sentences|
      invariant 0 <= i <= |sentences| && |constructed| == i
      invariant constructed == Whole(sentences, i) && count == WholeWords(sentences, i)
      invariant Taken(sentences, target, 0) == Taken(sentences, target, i)
    {
      var words := sentences[i].clean;
      if count + |words| <= target + 2 {
        constructed := constructed + [words];
        count := count + |words|;
        i := i + 1;
      } else {
        var remaining := target - count;
        if remaining >= 4 { constructed := constructed + [Truncated(words, remaining)]; }
        break;
      }
    }
    if constructed == [] {
      if sentences == [] { return None; }
      constructed := [sentences[0].raw];
    }
    r := Some(constructed);
  }

  // ---- Generator and validator agree ----

  /** The rows the generator makes of its scenes, with some number of words in each. */
  function RowsOf(scenes: seq<Scene>, words: seq<int>): seq<Row>
    requires |scenes| == |words| == 3
  {
    [ Row(scenes[0].start, scenes[0].end, words[0]),
      Row(scenes[1].start, scenes[1].end, words[1]),
      Row(scenes[2].start, scenes[2].end, words[2]) ]
  }

  /** Dialogue fitted to a scene's budget has at most two words more. */
  ghost predicate FittedTo(scenes: seq<Scene>, words: seq<int>)
    requires |scenes| == |words| == 3
  {
    forall k :: 0 <= k < 3 ==> words[k] <= scenes[k].budget + 2
  }

  /** A share is an exact tenth, so it is exact where the share itself is a tenth. */
  lemma {:induction false} SharesAreExact(runtime: int, hookShare: real, bodyShare: real, ctaShare: real)
    requires Shares(runtime, hookShare, bodyShare, ctaShare)
    ensures hookShare == runtime as real * 0.2
    ensures ctaShare == runtime as real - (Max(hookShare, 5.0) + Max(bodyShare, 10.0))
  {
    var (h, b, c) := ((hookShare * 10.0).Floor, (bodyShare * 10.0).Floor, (ctaShare * 10.0).Floor);
    assert hookShare * 10.0 == h as real && -0.5 <= h as real - 2.0 * runtime as real <= 0.5;
    assert h == 2 * runtime;
    var (hook, body) := (if h >= 50 then h else 50, if b >= 100 then b else 100);
    assert Max(hookShare, 5.0) * 10.0 == hook as real && Max(bodyShare, 10.0) * 10.0 == body as real;
    assert -0.5 <= c as real - (10 * runtime - hook - body) as real <= 0.5;
    assert c == 10 * runtime - hook - body;
  }

  /** Windows are positive, adjoin, and end at the runtime, from 21 seconds on; the last is at least six seconds
      long. */
  lemma {:induction false} WindowsFit(runtime: int, pace: real, hookShare: real, bodyShare: real, ctaShare: real)
    requires runtime >= 21 && Shares(runtime, hookShare, bodyShare, ctaShare)
    ensures var s := SceneBudgets(runtime, pace, hookShare, bodyShare, ctaShare);
            && s[0].start == 0.0 && s[0].end == s[1].start && s[1].end == s[2].start && s[2].end == runtime as real
            && s[0].end - s[0].start >= 5.0 && s[1].end - s[1].start >= 10.0 && s[2].end - s[2].start >= 6.0
            && s[2].end - s[2].start == Max(ctaShare, 5.0)
  {
    SharesAreExact(runtime, hookShare, bodyShare, ctaShare);
    var b := (bodyShare * 10.0).Floor;
    assert bodyShare * 10.0 == b as real && -0.5 <= b as real - 4.5 * runtime as real <= 0.5;
    assert 2 * b <= 9 * runtime + 1;
  }

  lemma {:induction false} LongerHoldsMore(duration: real, least: real, pace: real)
    requires duration >= least >= 0.0 && pace >= 4.0 / 3.0
    ensures duration * pace >= least * (4.0 / 3.0)
  {
    assert (duration - least) * pace >= 0.0;
    assert least * (pace - 4.0 / 3.0) >= 0.0;
  }

  /** A scene that holds at least 20/3 words, and 8/7 of its least budget, can take two words over its budget. */
  lemma {:induction false} CeilingAdmits(x: real, least: int)
    requires x >= 20.0 / 3.0 && x * 1.15 >= least as real + 1.0
    ensures MaxInt(x.Floor, least) + 2 <= (x * 1.15).Floor + 1
  {
    assert x * 1.15 >= x + 1.0;
    assert (x * 1.15).Floor >= x.Floor + 1;
  }

  lemma {:induction false} SceneAdmits(duration: real, shortest: real, pace: real, least: int)
    requires duration >= shortest >= 5.0 && pace >= 4.0 / 3.0
    requires shortest * (4.0 / 3.0) * 1.15 >= least as real + 1.0
    ensures Budget(duration, pace, least) + 2 <= Ceiling(duration, pace)
  {
    LongerHoldsMore(duration, shortest, pace);
    CeilingAdmits(duration * pace, least);
  }

  /** The audit's only possible complaint about generated timing is that a scene drags. */
  ghost predicate OnlyDrags(violations: seq<Violation>) {
    forall v :: v in violations ==> v.PacingDragging?
  }

  lemma {:induction false} ThreeRows(rows: seq<Row>, runtime: int, pace: real)
    requires |rows| == 3 && runtime >= 0 && rows[2].end == runtime as real
    requires rows[0].start == 0.0 && rows[0].end == rows[1].start && rows[1].end == rows[2].start
    ensures Audits(rows, runtime, pace, 3) ==
            PacingOf(1, rows[0], pace) + PacingOf(2, rows[1], pace) + PacingOf(3, rows[2], pace)
  {
    assert Audits(rows, runtime, pace, 0) == [];
    assert Audits(rows, runtime, pace, 1) == PacingOf(1, rows[0], pace);
    assert Audits(rows, runtime, pace, 2) == PacingOf(1, rows[0], pace) + PacingOf(2, rows[1], pace);
  }

  /** From 21 seconds and 80 words a minute on, every fitted script passes, whatever way the shares are rounded. */
  lemma {:induction false} GeneratedTimingPasses(
    runtime: int, pace: real, hookShare: real, bodyShare: real, ctaShare: real, words: seq<int>)
    requires runtime >= 21 && pace >= 4.0 / 3.0 && Shares(runtime, hookShare, bodyShare, ctaShare) && |words| == 3
    requires FittedTo(SceneBudgets(runtime, pace, hookShare, bodyShare, ctaShare), words)
    ensures var scenes := SceneBudgets(runtime, pace, hookShare, bodyShare, ctaShare);
            OnlyDrags(Audits(RowsOf(scenes, words), runtime, pace, 3))
  {
    var s := SceneBudgets(runtime, pace, hookShare, bodyShare, ctaShare);
    WindowsFit(runtime, pace, hookShare, bodyShare, ctaShare);
    SceneAdmits(s[0].end - s[0].start, 5.0, pace, 6);
    SceneAdmits(s[1].end - s[1].start, 10.0, pace, 12);
    SceneAdmits(s[2].end - s[2].start, 6.0, pace, 8);
    ThreeRows(RowsOf(s, words), runtime, pace);
  }

  /** Up to 20 seconds the last scene fails at 80 words a minute: it is too short, or has no time at all. */
  lemma {:induction false} ShortRuntimesFail(
      runtime: int, hookShare: real, bodyShare: real, ctaShare: real, words: seq<int>)
    requires 0 <= runtime <= 20 && Shares(runtime, hookShare, bodyShare, ctaShare) && |words| == 3
    requires words[2] == SceneBudgets(runtime, 4.0 / 3.0, hookShare, bodyShare, ctaShare)[2].budget + 2
    ensures var scenes := SceneBudgets(runtime, 4.0 / 3.0, hookShare, bodyShare, ctaShare);
            !OnlyDrags(Audits(RowsOf(scenes, words), runtime, 4.0 / 3.0, 3))
  {
    var pace := 4.0 / 3.0;
    var s := SceneBudgets(runtime, pace, hookShare, bodyShare, ctaShare);
    var rows := RowsOf(s, words);
    var last := rows[2].end - rows[2].start;
    assert last <= 5.0;
    assert Ceiling(last, pace) <= 8;
    ThreeRows(rows, runtime, pace);
    var v := PacingOf(3, rows[2], pace)[0];
    assert v in PacingOf(3, rows[2], pace);
    assert !v.PacingDragging?;
  }

  /** Every fitted script at 80 words a minute or more. */
  ghost predicate Passes(runtime: int, pace: real, hookShare: real, bodyShare: real, ctaShare: real, words: seq<int>) {
    var scenes := SceneBudgets(runtime, pace, hookShare, bodyShare, ctaShare);
    pace >= 4.0 / 3.0 && |words| == 3 && FittedTo(scenes, words) ==>
        OnlyDrags(Audits(RowsOf(scenes, words), runtime, pace, 3))
  }

  /** Fitting is safe at every pace exactly from 21 seconds on. */
  lemma {:induction false} AllPassExactlyFrom21(runtime: nat, hookShare: real, bodyShare: real, ctaShare: real)
    requires Shares(runtime, hookShare, bodyShare, ctaShare)
    ensures (forall pace, words :: Passes(runtime, pace, hookShare, bodyShare, ctaShare, words)) <==> runtime >= 21
  {
    if runtime >= 21 {
      forall pace, words ensures Passes(runtime, pace, hookShare, bodyShare, ctaShare, words) {
        var scenes := SceneBudgets(runtime, pace, hookShare, bodyShare, ctaShare);
        if pace >= 4.0 / 3.0 && |words| == 3 && FittedTo(scenes, words) {
          GeneratedTimingPasses(runtime, pace, hookShare, bodyShare, ctaShare, words);
        }
      }
    } else {
      var scenes := SceneBudgets(runtime, 4.0 / 3.0, hookShare, bodyShare, ctaShare);
      var words := [0, 0, scenes[2].budget + 2];
      ShortRuntimesFail(runtime, hookShare, bodyShare, ctaShare, words);
      assert FittedTo(scenes, words);
      assert !Passes(runtime, 4.0 / 3.0, hookShare, bodyShare, ctaShare, words);
    }
  }
}
