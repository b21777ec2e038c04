/** The report generator's fold over `go test -json` events. */
module TestReport {
  import opened Prelude
  import opened Regex
  import opened Masking
  import PlainText
  import Sanitize

  /** One line of the log, with the defaults of `event.get`; a line that is no JSON object is `None`. */
  datatype Event = Event(test: string, pkg: string, action: string, output: string, elapsed: real)

  type Log = seq<Option<Event>>

  datatype Test = Test(pkg: string, status: string, duration: real, output: seq<string>)

  datatype Failure = Failure(name: string, duration: real, output: string)

  datatype Report = Report(status: string, passed: nat, failed: nat, skipped: nat, total: nat, duration: real,
                           tests: map<string, Test>, failedTests: seq<Failure>)

  function Upper(action: string): string {
    if action == "pass" then "PASS" else if action == "fail" then "FAIL" else "SKIP"
  }

  predicate Ends(e: Event) { e.action == "pass" || e.action == "fail" || e.action == "skip" }

  function Join(chunks: seq<string>): string {
    if chunks == [] then "" else Join(chunks[..|chunks| - 1]) + chunks[|chunks| - 1]
  }

  // ---- What the report is about, read off the log -------------------------

  /** Line `n` is an event of test `name`. */
  predicate Concerns(log: Log, n: nat, name: string) {
    n < |log| && log[n].Some? && log[n].value.test == name && name != ""
  }

  /** The events of any test that end it with `action`. */
  function Count(log: Log, action: string): nat {
    if log == [] then 0
    else
      var e := log[|log| - 1];
      Count(log[..|log| - 1], action) + if e.Some? && e.value.test != "" && e.value.action == action then 1 else 0
  }

  function Elapsed(log: Log): real {
    if log == [] then 0.0
    else
      var e := log[|log| - 1];
      Elapsed(log[..|log| - 1]) + if e.Some? && e.value.test != "" && Ends(e.value) then e.value.elapsed else 0.0
  }

  /** The masked outputs of one test, in order. */
  ghost function Chunks(log: Log, name: string): seq<string> {
    if log == [] then []
    else
      var e := log[|log| - 1];
      Chunks(log[..|log| - 1], name) +
      if e.Some? && name != "" && e.value.test == name && e.value.output != ""
      then [Sanitize.Sanitized(e.value.output)] else []
  }

  /** A test as it stands: package of its first event, status and duration of the last event that ended it. */
  ghost function TestOf(log: Log, name: string): Option<Test> {
    if log == [] then None
    else
      var before, e := TestOf(log[..|log| - 1], name), log[|log| - 1];
      if e.None? || name == "" || e.value.test != name then before
      else
        var t := if before.Some? then before.value else Test(e.value.pkg, "UNKNOWN", 0.0, []);
        var ended := if Ends(e.value) then t.(status := Upper(e.value.action), duration := e.value.elapsed) else t;
        Some(ended.(output := Chunks(log, name)))
  }

  /** One entry for each failure, with what the test had put out by then. */
  ghost function Failures(log: Log): seq<Failure> {
    if log == [] then []
    else
      var before, e := Failures(log[..|log| - 1]), log[|log| - 1];
      if e.Some? && e.value.test != "" && e.value.action == "fail"
      then before + [Failure(e.value.test, e.value.elapsed, Join(Chunks(log, e.value.test)))]
      else before
  }

  /** The state of the fold after a log. */
  ghost predicate FoldOf(log: Log, tests: map<string, Test>, failedTests: seq<Failure>) {
    && (forall name :: TestOf(log, name) == if name in tests then Some(tests[name]) else None)
    && failedTests == Failures(log)
  }

  // ---- The report line by line --------------------------------------------

  /** Line `n` ends the test. */
  predicate EndsAt(log: Log, n: nat, name: string) {
    Concerns(log, n, name) && log[n].value.action in {"pass", "fail", "skip"}
  }

  lemma ConcernsPrefix(log: Log, name: string)
    requires log != []
    ensures forall n: nat | n < |log| - 1 ::
              && (Concerns(log[..|log| - 1], n, name) <==> Concerns(log, n, name))
              && (EndsAt(log[..|log| - 1], n, name) <==> EndsAt(log, n, name))
              && log[..|log| - 1][n] == log[n]
  {
  }

  /** A test is there once a line names it, with the package of the first line that does. */
  lemma {:induction false} TestIsThere(log: Log, name: string)
    ensures TestOf(log, name).Some? <==> exists n: nat :: Concerns(log, n, name)
    ensures forall n: nat | Concerns(log, n, name) && (forall m: nat | m < n :: !Concerns(log, m, name)) ::
              TestOf(log, name).value.pkg == log[n].value.pkg
  {
    if log != [] {
      TestIsThere(log[..|log| - 1], name);
      ConcernsPrefix(log, name);
      TestStep(log, name);
      assert forall n: nat :: Concerns(log, n, name) ==> n < |log| - 1 || n == |log| - 1;
      assert forall n: nat :: Concerns(log[..|log| - 1], n, name) ==> Concerns(log, n, name);
    }
  }

  /** What the last line of a log does to a test. */
  lemma TestStep(log: Log, name: string)
    requires log != []
    ensures var n := |log| - 1; var before, after := TestOf(log[..n], name), TestOf(log, name);
      if !Concerns(log, n, name) then after == before
      else
        var t := if before.Some? then before.value else Test(log[n].value.pkg, "UNKNOWN", 0.0, []);
        && after.Some? && after.value.pkg == t.pkg
        && after.value.status == (if EndsAt(log, n, name) then Upper(log[n].value.action) else t.status)
        && after.value.duration == (if EndsAt(log, n, name) then log[n].value.elapsed else t.duration)
  {
  }

  /**
   Status and duration of a test are those of the last line that ended it;
   without one the status is unknown.
   */
  lemma {:induction false} StatusIs(log: Log, name: string)
    ensures forall n: nat | EndsAt(log, n, name) && (forall m: nat | n < m :: !EndsAt(log, m, name)) ::
      && TestOf(log, name).Some? && TestOf(log, name).value.duration == log[n].value.elapsed
      && TestOf(log, name).value.status ==
           if log[n].value.action == "pass" then "PASS" else if log[n].value.action == "fail" then "FAIL" else "SKIP"
    ensures TestOf(log, name).Some? && (forall n: nat :: !EndsAt(log, n, name)) ==>
      TestOf(log, name).value.status == "UNKNOWN" && TestOf(log, name).value.duration == 0.0
  {
    if log != [] {
      StatusIs(log[..|log| - 1], name);
      ConcernsPrefix(log, name);
      TestStep(log, name);
      TestStayed(log, name);
    }
  }

  /** Lines of a prefix are lines of the log, and there is one more. */
  lemma TestStayed(log: Log, name: string)
    requires log != []
    ensures forall n: nat :: EndsAt(log[..|log| - 1], n, name) ==> EndsAt(log, n, name)
    ensures forall n: nat :: EndsAt(log, n, name) && !EndsAt(log[..|log| - 1], n, name) ==> n == |log| - 1
  {
  }

  ghost predicate Increasing(at: seq<nat>) {
    forall x, y | 0 <= x < y < |at| :: at[x] < at[y]
  }

  /** Line `n` puts something out for the test. */
  predicate PutsOut(log: Log, n: nat, name: string) {
    Concerns(log, n, name) && log[n].value.output != ""
  }

  /** `chunks` are the masked outputs of the lines `at`, and these are the lines that put something out. */
  ghost predicate ChunksAt(log: Log, name: string, chunks: seq<string>, at: seq<nat>) {
    && Increasing(at) && |chunks| == |at|
    && (forall n: nat :: n in at <==> PutsOut(log, n, name))
    && forall x | 0 <= x < |at| :: at[x] < |log| && log[at[x]].Some? &&
         chunks[x] == Sanitize.Sanitized(log[at[x]].value.output)
  }

  /** The output of a test is its masked outputs, line by line, in order. */
  lemma {:induction false} ChunksAre(log: Log, name: string) returns (at: seq<nat>)
    ensures ChunksAt(log, name, Chunks(log, name), at)
  {
    if log == [] {
      at := [];
    } else {
      var n := |log| - 1;
      var before := ChunksAre(log[..n], name);
      at := if PutsOut(log, n, name) then before + [n] else before;
      ChunksStep(log, name, before, at);
    }
  }

  /** One more line beyond all of `before`, or none. */
  lemma ExtendLines(before: seq<nat>, n: nat, more: bool, at: seq<nat>)
    requires Increasing(before) && (forall m: nat :: m in before ==> m < n)
    requires at == if more then before + [n] else before
    ensures Increasing(at) && forall m: nat :: m in at <==> m in before || (m == n && more)
  {
    assert forall x | 0 <= x < |before| :: before[x] in before;
  }

  lemma PutsOutPrefix(log: Log, name: string)
    requires log != []
    ensures forall m: nat :: PutsOut(log[..|log| - 1], m, name) <==> m < |log| - 1 && PutsOut(log, m, name)
  {
    var before := log[..|log| - 1];
    forall m: nat
      ensures PutsOut(before, m, name) <==> m < |before| && PutsOut(log, m, name)
    {
      assert m < |before| ==> before[m] == log[m];
    }
  }

  lemma LastChunk(log: Log, name: string)
    requires log != []
    ensures Chunks(log, name) == Chunks(log[..|log| - 1], name) +
              if PutsOut(log, |log| - 1, name) then [Sanitize.Sanitized(log[|log| - 1].value.output)] else []
  {
    var n := |log| - 1;
    if PutsOut(log, n, name) {
      assert Chunks(log, name) == Chunks(log[..n], name) + [Sanitize.Sanitized(log[n].value.output)];
    } else {
      assert Chunks(log, name) == Chunks(log[..n], name) + [];
    }
  }

  lemma ChunksStep(log: Log, name: string, before: seq<nat>, at: seq<nat>)
    requires log != [] && ChunksAt(log[..|log| - 1], name, Chunks(log[..|log| - 1], name), before)
    requires at == if PutsOut(log, |log| - 1, name) then before + [|log| - 1] else before
    ensures ChunksAt(log, name, Chunks(log, name), at)
  {
    var n := |log| - 1;
    LastChunk(log, name);
    PutsOutPrefix(log, name);
    ExtendLines(before, n, PutsOut(log, n, name), at);
    forall x | 0 <= x < |before|
      ensures before[x] < n && log[before[x]] == log[..n][before[x]]
    {
    }
  }

  /** Line `n` is a failure of some test. */
  predicate Fails(log: Log, n: nat) {
    n < |log| && log[n].Some? && log[n].value.test != "" && log[n].value.action == "fail"
  }

  /** The entry of the failure on line `n`: what its test had put out by then, that line included. */
  ghost predicate FailureAt(log: Log, failure: Failure, n: nat) {
    && n < |log| && log[n].Some?
    && failure.name == log[n].value.test && failure.duration == log[n].value.elapsed
    && failure.output == Join(Chunks(log[..n + 1], log[n].value.test))
  }

  /** The failures are those of the lines `at`, and these are the lines on which a test failed. */
  ghost predicate FailuresAt(log: Log, failures: seq<Failure>, at: seq<nat>) {
    && Increasing(at) && |failures| == |at| && (forall n: nat :: n in at <==> Fails(log, n))
    && forall x | 0 <= x < |at| :: FailureAt(log, failures[x], at[x])
  }

  lemma {:induction false} FailuresAre(log: Log) returns (at: seq<nat>)
    ensures FailuresAt(log, Failures(log), at)
  {
    if log == [] {
      at := [];
    } else {
      var n := |log| - 1;
      var before := FailuresAre(log[..n]);
      at := if Fails(log, n) then before + [n] else before;
      FailuresStep(log, before, at);
    }
  }

  lemma FailsPrefix(log: Log)
    requires log != []
    ensures forall m: nat :: Fails(log[..|log| - 1], m) <==> m < |log| - 1 && Fails(log, m)
  {
    var before := log[..|log| - 1];
    forall m: nat
      ensures Fails(before, m) <==> m < |before| && Fails(log, m)
    {
      assert m < |before| ==> before[m] == log[m];
    }
  }

  lemma LastFailure(log: Log)
    requires log != []
    ensures !Fails(log, |log| - 1) ==> Failures(log) == Failures(log[..|log| - 1])
    ensures Fails(log, |log| - 1) ==>
      && Failures(log) == Failures(log[..|log| - 1]) + [Failures(log)[|Failures(log)| - 1]]
      && FailureAt(log, Failures(log)[|Failures(log)| - 1], |log| - 1)
  {
    var n := |log| - 1;
    if Fails(log, n) {
      var e := log[n].value;
      var last := Failure(e.test, e.elapsed, Join(Chunks(log, e.test)));
      assert log[..n + 1] == log;
      assert FailureAt(log, last, n);
      assert Failures(log) == Failures(log[..n]) + [last];
    }
  }

  lemma FailureStays(log: Log, failure: Failure, n: nat, m: nat)
    requires n <= |log| && FailureAt(log[..n], failure, m)
    ensures FailureAt(log, failure, m)
  {
    assert log[..n][m] == log[m] && log[..n][..m + 1] == log[..m + 1];
  }

  lemma FailuresStay(log: Log, failures: seq<Failure>, before: seq<nat>)
    requires log != [] && |failures| == |before|
    requires forall x | 0 <= x < |before| :: FailureAt(log[..|log| - 1], failures[x], before[x])
    ensures forall x | 0 <= x < |before| :: FailureAt(log, failures[x], before[x])
  {
    forall x | 0 <= x < |before|
      ensures FailureAt(log, failures[x], before[x])
    {
      FailureStays(log, failures[x], |log| - 1, before[x]);
    }
  }

  lemma FailuresStep(log: Log, before: seq<nat>, at: seq<nat>)
    requires log != [] && FailuresAt(log[..|log| - 1], Failures(log[..|log| - 1]), before)
    requires at == if Fails(log, |log| - 1) then before + [|log| - 1] else before
    ensures FailuresAt(log, Failures(log), at)
  {
    var n := |log| - 1;
    FailsPrefix(log);
    ExtendLines(before, n, Fails(log, n), at);
    FailuresStay(log, Failures(log[..n]), before);
    LastFailure(log);
    if Fails(log, n) {
      OneMoreFailure(log, Failures(log[..n]), Failures(log)[|Failures(log)| - 1], before);
    }
  }

  lemma OneMoreFailure(log: Log, failures: seq<Failure>, last: Failure, before: seq<nat>)
    requires log != [] && |failures| == |before| && FailureAt(log, last, |log| - 1)
    requires forall x | 0 <= x < |before| :: FailureAt(log, failures[x], before[x])
    ensures forall x | 0 <= x < |before| + 1 :: FailureAt(log, (failures + [last])[x], (before + [|log| - 1])[x])
  {
  }

  /** The lines on which some test ends with this action. */
  ghost function EndedBy(log: Log, action: string): set<nat> {
    set n: nat | n < |log| && log[n].Some? && log[n].value.test != "" && log[n].value.action == action
  }

  lemma EndedByStep(log: Log, action: string)
    requires log != []
    ensures |log| - 1 !in EndedBy(log[..|log| - 1], action)
    ensures EndedBy(log, action) == EndedBy(log[..|log| - 1], action) +
              if |log| - 1 in EndedBy(log, action) then {|log| - 1} else {}
  {
    var n := |log| - 1;
    forall m: nat
      ensures m in EndedBy(log[..n], action) <==> m < n && m in EndedBy(log, action)
    {
    }
  }

  lemma {:induction false} CountIs(log: Log, action: string)
    ensures Count(log, action) == |EndedBy(log, action)|
  {
    if log == [] {
      assert EndedBy(log, action) == {};
    } else {
      CountIs(log[..|log| - 1], action);
      EndedByStep(log, action);
      assert |log| - 1 in EndedBy(log, action) <==>
             var e := log[|log| - 1]; e.Some? && e.value.test != "" && e.value.action == action;
    }
  }

  // ---- Laws ---------------------------------------------------------------

  lemma {:induction false} OutputIsChunks(log: Log, name: string)
    ensures TestOf(log, name).Some? ==> TestOf(log, name).value.output == Chunks(log, name)
    ensures TestOf(log, name).None? ==> Chunks(log, name) == []
  {
    if log != [] {
      OutputIsChunks(log[..|log| - 1], name);
    }
  }

  /** Every chunk is the masked form of an output of this test. */
  lemma {:induction false} ChunkIsMasked(log: Log, name: string, chunk: string) returns (n: nat)
    requires chunk in Chunks(log, name)
    ensures Concerns(log, n, name) && log[n].value.output != "" && chunk == Sanitize.Sanitized(log[n].value.output)
  {
    if chunk in Chunks(log[..|log| - 1], name) {
      n := ChunkIsMasked(log[..|log| - 1], name, chunk);
    } else {
      n := |log| - 1;
    }
  }

  /** No chunk of any test holds a secret that one of the six patterns asks for. */
  lemma ChunksHoldNoSecret(log: Log, name: string, chunk: string)
    requires chunk in Chunks(log, name)
    ensures PlainText.HoldsNoSecret(chunk)
  {
    var n := ChunkIsMasked(log, name, chunk);
    Sanitize.SanitizedHoldsNoSecret(log[n].value.output);
  }

  lemma {:induction false} JoinAppend(a: seq<string>, b: seq<string>)
    ensures Join(a) <= Join(a + b)
    decreases |b|
  {
    if b == [] {
      assert a + b == a;
    } else {
      JoinAppend(a, b[..|b| - 1]);
      assert (a + b)[..|a + b| - 1] == a + b[..|b| - 1];
    }
  }

  lemma {:induction false} ChunksGrow(log: Log, n: nat, name: string)
    requires n <= |log|
    ensures Chunks(log[..n], name) <= Chunks(log, name)
    decreases |log|
  {
    if n < |log| {
      ChunksGrow(log[..|log| - 1], n, name);
      assert log[..|log| - 1][..n] == log[..n];
    } else {
      assert log[..n] == log;
    }
  }

  /** As many entries as failures, each the beginning of what its test put out in the end. */
  lemma {:induction false} FailuresAreSnapshots(log: Log, i: nat)
    requires i < |Failures(log)|
    ensures |Failures(log)| == Count(log, "fail")
    ensures var f := Failures(log)[i]; f.name != "" && f.output <= Join(Chunks(log, f.name))
  {
    var shorter := log[..|log| - 1];
    if i < |Failures(shorter)| {
      FailuresAreSnapshots(shorter, i);
      var f := Failures(shorter)[i];
      ChunksGrow(log, |log| - 1, f.name);
      var more := Chunks(log, f.name)[|Chunks(shorter, f.name)|..];
      assert Chunks(log, f.name) == Chunks(shorter, f.name) + more;
      JoinAppend(Chunks(shorter, f.name), more);
    } else {
      FailuresCounted(shorter);
    }
  }

  lemma {:induction false} FailuresCounted(log: Log)
    ensures |Failures(log)| == Count(log, "fail")
  {
    if log != [] {
      FailuresCounted(log[..|log| - 1]);
    }
  }

  // ---- Joined chunks ------------------------------------------------------

  function MinLength(p: Pattern): nat {
    if p == [] then 0 else p[0].min + MinLength(p[1..])
  }

  lemma {:induction false} MatchIsLong(p: Pattern, u: string, ks: seq<nat>)
    requires Splits(p, u, ks)
    ensures |u| >= MinLength(p)
    decreases |p|
  {
    if p != [] {
      MatchIsLong(p[1..], u[ks[0]..], ks[1..]);
    }
  }

  lemma ShortTextIsClean(p: Pattern, s: string)
    requires |s| < MinLength(p)
    ensures !HasMatch(p, s)
  {
    if HasMatch(p, s) {
      var u :| SubstringOf(u, s) && Matches(p, u);
      var ks :| Splits(p, u, ks);
      MatchIsLong(p, u, ks);
    }
  }

  lemma {:induction false} MinLengthJoin(p: Pattern, q: Pattern)
    ensures MinLength(p + q) == MinLength(p) + MinLength(q)
  {
    if p == [] {
      assert p + q == q;
    } else {
      assert (p + q)[1..] == p[1..] + q;
      MinLengthJoin(p[1..], q);
    }
  }

  lemma {:induction false} MinLengthAtLeast(p: Pattern, n: nat)
    requires n <= |p| && forall i | 0 <= i < n :: p[i].min >= 1
    ensures MinLength(p) >= n
  {
    if n > 0 {
      MinLengthAtLeast(p[1..], n - 1);
    }
  }

  /** No pattern of the table matches a text of ten characters or fewer. */
  lemma PatternsAreLong(k: nat)
    requires k < |Sanitize.Rules()|
    ensures MinLength(Sanitize.Rules()[k].pattern) > 10
  {
    if k == 0 {
      TwoItems("bearer", 6, 10);
    } else if k == 4 {
      TwoItems("token-val", 9, 8);
    } else if k == 5 {
      TwoItems("key-auth", 8, 10);
    } else {
      MinLengthAtLeast(Sanitize.Rules()[k].pattern, 11);
    }
  }

  lemma TwoItems(key: string, length: nat, n: nat)
    requires |key| == length
    ensures MinLength(Sanitize.Folded(key) + [AtLeast(Space, 1), AtLeast(TokenChar, n)]) >= length + 1 + n
  {
    var tail := [AtLeast(Space, 1), AtLeast(TokenChar, n)];
    MinLengthJoin(Sanitize.Folded(key), tail);
    MinLengthAtLeast(Sanitize.Folded(key), length);
    assert tail[1..] == [AtLeast(TokenChar, n)] && [AtLeast(TokenChar, n)][1..] == [];
  }

  /**
   Chunks are masked one by one: each may be clean while their join, which is
   what a failure records, is not.  Two output lines, `Bearer` and ten token
   characters, pass through unmasked and match together.
   */
  lemma JoinedChunksCanMatch(token: string)
    requires |token| == 10 && forall i | 0 <= i < 10 :: In(token[i], TokenChar)
    ensures Sanitize.Sanitized("Bearer\n") == "Bearer\n" && Sanitize.Sanitized(token) == token
    ensures HasMatch(Sanitize.Rules()[0].pattern, Join([Sanitize.Sanitized("Bearer\n"), Sanitize.Sanitized(token)]))
  {
    ShortIsUnchanged("Bearer\n");
    ShortIsUnchanged(token);
    JoinTwo("Bearer\n", token);
    BearerMatches(token);
    WholeMatch(Sanitize.Bearer(), "Bearer\n" + token);
  }

  lemma JoinTwo(a: string, b: string)
    ensures Join([a, b]) == a + b
  {
    assert [a, b][..1] == [a] && [a][..0] == [];
    assert Join([a]) == Join([]) + a;
  }

  lemma WholeMatch(p: Pattern, s: string)
    requires Matches(p, s)
    ensures HasMatch(p, s)
  {
    assert s == s[0..|s|];
    SliceIsSubstring(s, 0, |s|);
  }

  lemma ShortIsUnchanged(s: string)
    requires 0 < |s| <= 10
    ensures Sanitize.Sanitized(s) == s
  {
    forall k | 0 <= k < |Sanitize.Rules()|
      ensures !HasMatch(Sanitize.Rules()[k].pattern, s)
    {
      PatternsAreLong(k);
      ShortTextIsClean(Sanitize.Rules()[k].pattern, s);
    }
    Sanitize.CleanTextUnchanged(s, 8);
  }

  lemma BearerMatches(token: string)
    requires |token| == 10 && forall i | 0 <= i < 10 :: In(token[i], TokenChar)
    ensures Matches(Sanitize.Bearer(), "Bearer\n" + token)
  {
    KeyMatches();
    TailMatches(token);
    MatchesJoin(Sanitize.Folded("bearer"), [AtLeast(Space, 1), AtLeast(TokenChar, 10)], "Bearer", "\n" + token);
    Regrouped(token);
  }

  lemma KeyMatches()
    ensures Matches(Sanitize.Folded("bearer"), "Bearer")
  {
    Sanitize.FoldedMatches("bearer", "Bearer");
  }

  lemma TailMatches(token: string)
    requires |token| == 10 && forall i | 0 <= i < 10 :: In(token[i], TokenChar)
    ensures Matches([AtLeast(Space, 1), AtLeast(TokenChar, 10)], "\n" + token)
  {
    MatchesItem(AtLeast(Space, 1), "\n");
    MatchesItem(AtLeast(TokenChar, 10), token);
    MatchesJoin([AtLeast(Space, 1)], [AtLeast(TokenChar, 10)], "\n", token);
    assert [AtLeast(Space, 1)] + [AtLeast(TokenChar, 10)] == [AtLeast(Space, 1), AtLeast(TokenChar, 10)];
  }

  lemma Regrouped(token: string)
    ensures "Bearer" + ("\n" + token) == "Bearer\n" + token
  {
  }

  // ---- The loop -----------------------------------------------------------

  const MISSING: Report := Report("ERROR", 0, 1, 0, 1, 0.0, map[], [Failure("Execution", 0.0, "")])

  /** What one event adds. */
  lemma Extend(log: Log, e: Event, name: string)
    ensures var longer := log + [Some(e)];
      && Chunks(longer, name) == Chunks(log, name) +
           (if name != "" && e.test == name && e.output != "" then [Sanitize.Sanitized(e.output)] else [])
      && (name == "" || e.test != name ==> TestOf(longer, name) == TestOf(log, name))
  {
    assert (log + [Some(e)])[..|log|] == log;
  }

  lemma ExtendTest(log: Log, e: Event)
    requires e.test != ""
    ensures var longer := log + [Some(e)];
      var t := if TestOf(log, e.test).Some? then TestOf(log, e.test).value else Test(e.pkg, "UNKNOWN", 0.0, []);
      TestOf(longer, e.test) == Some(Test(t.pkg, if Ends(e) then Upper(e.action) else t.status,
                                          if Ends(e) then e.elapsed else t.duration, Chunks(longer, e.test)))
  {
    assert (log + [Some(e)])[..|log|] == log;
  }

  lemma ExtendFailures(log: Log, e: Event)
    requires e.test != ""
    ensures Failures(log + [Some(e)]) == Failures(log) +
              if e.action == "fail" then [Failure(e.test, e.elapsed, Join(Chunks(log + [Some(e)], e.test)))] else []
  {
    assert (log + [Some(e)])[..|log|] == log;
  }

  /** A line without a test leaves the fold as it is. */
  lemma Skip(log: Log, line: Option<Event>, tests: map<string, Test>, failedTests: seq<Failure>)
    requires FoldOf(log, tests, failedTests) && (line.None? || line.value.test == "")
    ensures FoldOf(log + [line], tests, failedTests)
  {
    assert (log + [line])[..|log|] == log;
  }

  lemma Update(log: Log, e: Event, tests: map<string, Test>, failedTests: seq<Failure>, t: Test, failures: seq<Failure>)
    requires FoldOf(log, tests, failedTests) && e.test != ""
    requires TestOf(log + [Some(e)], e.test) == Some(t) && failures == Failures(log + [Some(e)])
    ensures FoldOf(log + [Some(e)], tests[e.test := t], failures)
  {
    forall name
      ensures TestOf(log + [Some(e)], name) ==
              if name in tests[e.test := t] then Some(tests[e.test := t][name]) else None
    {
      Extend(log, e, name);
    }
  }

  lemma CountAppend(log: Log, line: Option<Event>)
    ensures forall action :: Count(log + [line], action) ==
              Count(log, action) + if line.Some? && line.value.test != "" && line.value.action == action then 1 else 0
    ensures Elapsed([]) == 0.0
    ensures Elapsed(log + [line]) ==
              Elapsed(log) + if line.Some? && line.value.test != "" && line.value.action in {"pass", "fail", "skip"}
                             then line.value.elapsed else 0.0
  {
    assert (log + [line])[..|log|] == log;
  }

  /** The body of the loop for an event of a test. */
  method Record(ghost log: Log, e: Event, tests: map<string, Test>, failedTests: seq<Failure>)
    returns (tests': map<string, Test>, failedTests': seq<Failure>)
    requires FoldOf(log, tests, failedTests) && e.test != ""
    ensures FoldOf(log + [Some(e)], tests', failedTests')
  {
    OutputIsChunks(log, e.test);
    Extend(log, e, e.test);
    ExtendTest(log, e);
    ExtendFailures(log, e);
    var t := if e.test in tests then tests[e.test] else Test(e.pkg, "UNKNOWN", 0.0, []);
    if e.output != "" {
      var masked := Sanitize.Sanitize(e.output);
      t := t.(output := t.output + [masked]);
    }
    assert t.output == Chunks(log + [Some(e)], e.test);
    if e.action == "pass" || e.action == "fail" || e.action == "skip" {
      t := t.(status := Upper(e.action), duration := e.elapsed);
    }
    tests' := tests[e.test := t];
    failedTests' := failedTests;
    if e.action == "fail" {
      failedTests' := failedTests + [Failure(e.test, e.elapsed, Join(t.output))];
    }
    Update(log, e, tests, failedTests, t, failedTests');
  }

  method ParseGoTestJson(input: Option<Log>) returns (r: Report)
    ensures input.None? ==>
      && r.status == "ERROR" && r.passed == 0 && r.failed == 1 && r.skipped == 0 && r.total == 1 && r.duration == 0.0
      && r.tests == map[] && r.failedTests == [Failure("Execution", 0.0, "")]
    ensures input.Some? ==>
      && FoldOf(input.value, r.tests, r.failedTests)
      && r.passed == Count(input.value, "pass") && r.failed == Count(input.value, "fail")
      && r.skipped == Count(input.value, "skip") && r.total == r.passed + r.failed + r.skipped
      && r.duration == Elapsed(input.value)
      && (r.status == "SUCCESS" <==> r.failed == 0 && r.total > 0) && r.failed == |r.failedTests|
      && (r.status == "SUCCESS" || r.status == "FAILURE")
  {
    if input.None? {
      return MISSING;
    }
    var log := input.value;
    var tests: map<string, Test> := map[];
    var failedTests: seq<Failure> := [];
    var passed, failed, skipped, duration := 0, 0, 0, 0.0;
    for i := 0 to |log|
      invariant FoldOf(log[..i], tests, failedTests)
      invariant passed == Count(log[..i], "pass") && failed == Count(log[..i], "fail")
                && skipped == Count(log[..i], "skip")
      invariant duration == Elapsed(log[..i])
    {
      assert log[..i + 1] == log[..i] + [log[i]];
      CountAppend(log[..i], log[i]);
      if log[i].None? || log[i].value.test == "" {
        Skip(log[..i], log[i], tests, failedTests);
        continue;
      }
      var e := log[i].value;
      tests, failedTests := Record(log[..i], e, tests, failedTests);
      if e.action == "pass" || e.action == "fail" || e.action == "skip" {
        duration := duration + e.elapsed;
        if e.action == "pass" {
          passed := passed + 1;
        } else if e.action == "fail" {
          failed := failed + 1;
        } else {
          skipped := skipped + 1;
        }
      }
    }
    assert log[..|log|] == log;
    FailuresCounted(log);
    var total := passed + failed + skipped;
    var status := if failed == 0 && total > 0 then "SUCCESS" else "FAILURE";
    r := Report(status, passed, failed, skipped, total, duration, tests, failedTests);
  }
}
