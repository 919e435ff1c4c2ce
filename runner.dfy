/** The runner proper: the skip set, the per-test skip-or-invoke decision,
    the per-test report line, the main loop that tallies results, and the
    final summary and verdict. Invoking a test body is an input: for
    the test at run position k, invoke(k) says how the construction,
    invocation and teardown ended, and elapsed(k) is the nanoTime
    difference measured around it. */
module TestRunner {
  import opened Faults
  import opened Text
  import opened Environment
  import opened Eligibility
  import opened Discovery

  datatype Status = PASS | SKIP | FAIL

  /** TestResult: the status and, for a failure, the rendered throwable. */
  datatype TestResult = Pass | Skip | Fail(cause: string) {
    function StatusOf(): Status
    {
      match this
      case Pass => PASS
      case Skip => SKIP
      case Fail(_) => FAIL
    }
  }

  /** How running one test body ended: normally, by throwing, or by
      throwing through reflection (an InvocationTargetException wrapping
      the test's own throwable). Causes are their toString() renderings. */
  datatype Invocation = Returned | Threw(cause: string) | ThrewWrapped(target: string)

  function StatusName(s: Status): string
  {
    match s
    case PASS => "PASS"
    case SKIP => "SKIP"
    case FAIL => "FAIL"
  }

  // ---------------------------------------------------------------------
  // Runner.configureSkipTests

  /** The lower-cased pieces of the "skip" property; nothing when it is
      absent or empty. */
  function SkipSet(skipProperty: Option<string>): (r: set<string>)
    ensures skipProperty.None? || skipProperty.value == [] ==> r == {}
    ensures forall x :: x in r ==> ToLower(x) == x && ',' !in x
  {
    if skipProperty.None? || skipProperty.value == [] then {}
    else set p | p in Split(skipProperty.value, ',') :: ToLower(p)
  }

  /** Every non-empty comma-separated piece, lower-cased, is in the skip
      set, and the set holds nothing else. */
  lemma SkipSetMembers(skipProperty: string)
    requires skipProperty != []
    ensures forall k :: 0 <= k < |Pieces(skipProperty, ',')| && Pieces(skipProperty, ',')[k] != []
                        ==> ToLower(Pieces(skipProperty, ',')[k]) in SkipSet(Some(skipProperty))
    ensures forall x :: x in SkipSet(Some(skipProperty))
                        ==> exists k :: 0 <= k < |Pieces(skipProperty, ',')| && x == ToLower(Pieces(skipProperty, ',')[k])
  {
    SplitKeepsNonEmpty(skipProperty, ',');
    var ps := Pieces(skipProperty, ',');
    forall x | x in SkipSet(Some(skipProperty))
      ensures exists k :: 0 <= k < |ps| && x == ToLower(ps[k])
    {
      var p :| p in Split(skipProperty, ',') && x == ToLower(p);
      assert p in ps;
      var k :| 0 <= k < |ps| && ps[k] == p;
    }
  }

  /** A property without commas is a single piece. */
  lemma {:induction false} PiecesWithoutSeparator(s: string, sep: char)
    requires sep !in s
    ensures Pieces(s, sep) == [s]
    decreases |s|
  {
    if s != [] {
      PiecesWithoutSeparator(s[1..], sep);
      assert [s[0]] + s[1..] == s;
    }
  }

  // ---------------------------------------------------------------------
  // Runner.run

  /** Ineligible, or named by class or by method in the skip set. */
  predicate Skipped(env: Env, skip: set<string>, rt: RunnableTest)
  {
    !Enabled(rt.test, env) || ToLower(rt.className) in skip || ToLower(rt.methodName) in skip
  }

  /** run: Skip without invoking, or the outcome of the invocation, with a
      reflective wrapper unwrapped to the test's own throwable. */
  function Run(env: Env, skip: set<string>, rt: RunnableTest, inv: Invocation): (r: TestResult)
    ensures r.Skip? <==> Skipped(env, skip, rt)
    ensures r.Pass? <==> !Skipped(env, skip, rt) && inv.Returned?
    ensures r.Fail? && inv.Threw? ==> r.cause == inv.cause
    ensures r.Fail? && inv.ThrewWrapped? ==> r.cause == inv.target
  {
    if Skipped(env, skip, rt) then Skip
    else
      match inv
      case Returned => Pass
      case Threw(e) => Fail(e)
      case ThrewWrapped(target) => Fail(target)
  }

  /** A skipped test's result does not depend on what its body would do. */
  lemma SkipDoesNotInvoke(env: Env, skip: set<string>, rt: RunnableTest, a: Invocation, b: Invocation)
    requires Skipped(env, skip, rt)
    ensures Run(env, skip, rt, a) == Run(env, skip, rt, b) == Skip
  {
  }

  /** Either name alone suffices, whatever the other one and the test's
      constraints are. */
  lemma EitherNameSkips(env: Env, skip: set<string>, rt: RunnableTest, inv: Invocation)
    requires ToLower(rt.className) in skip || ToLower(rt.methodName) in skip
    ensures Run(env, skip, rt, inv) == Skip
  {
  }

  /** skip=footests skips every test of class FooTests: a comma-free
      property that matches the class name up to case skips the test. */
  lemma ClassNamedInProperty(env: Env, skipProperty: string, rt: RunnableTest, inv: Invocation)
    requires skipProperty != [] && ',' !in skipProperty
    requires ToLower(rt.className) == ToLower(skipProperty)
    ensures Run(env, SkipSet(Some(skipProperty)), rt, inv) == Skip
  {
    PiecesWithoutSeparator(skipProperty, ',');
    assert Split(skipProperty, ',') == [skipProperty];
    assert ToLower(skipProperty) in SkipSet(Some(skipProperty));
  }

  /** An eligible, unlisted test that throws fails with its own cause. */
  lemma FailureKeepsCause(env: Env, skip: set<string>, rt: RunnableTest, cause: string)
    requires !Skipped(env, skip, rt)
    ensures Run(env, skip, rt, ThrewWrapped(cause)) == Fail(cause)
    ensures Run(env, skip, rt, Threw(cause)) == Fail(cause)
  {
  }

  // ---------------------------------------------------------------------
  // Runner.formatTestMessage

  /** STATUS [i/testCount] info took duration, with ": cause" on failure.
      The duration arrives already rendered. */
  function FormatTestMessage(rt: RunnableTest, result: TestResult, i: nat, testCount: nat, duration: string): (r: string)
    ensures StatusName(result.StatusOf()) + " [" <= r
  {
    var head := StatusName(result.StatusOf()) + " [" + NatToString(i) + "/";
    var body := NatToString(testCount) + "] " + rt.info + " took " + duration;
    head + (if result.Fail? then body + (": " + result.cause) else body)
  }

  /** The line opens with the status, then the index between "[" and "/",
      which reads back as i; a failure line closes with its cause. */
  lemma MessageShape(rt: RunnableTest, result: TestResult, i: nat, testCount: nat, duration: string)
    requires i <= IntMax
    ensures var m := FormatTestMessage(rt, result, i, testCount, duration);
            var n := |NatToString(i)|;
            && |m| > 6 + n
            && m[..4] == StatusName(result.StatusOf())
            && m[4..6] == " ["
            && ParseInt(m[6..6 + n]) == Ok(i)
            && m[6 + n] == '/'
            && (result.Fail? ==> EndsWith(m, ": " + result.cause))
  {
    var head := StatusName(result.StatusOf()) + " [" + NatToString(i) + "/";
    var body := NatToString(testCount) + "] " + rt.info + " took " + duration;
    var rest := if result.Fail? then body + (": " + result.cause) else body;
    LineLayout(StatusName(result.StatusOf()), NatToString(i), rest);
    ReadsBack(FormatTestMessage(rt, result, i, testCount, duration), 6, i);
    if result.Fail? {
      EndsWithNested(head, body, ": " + result.cause);
    }
  }

  /** From position h, m holds count, "] ", info and " took ". */
  predicate HasFields(m: string, h: nat, count: string, info: string)
  {
    var f := count + "] " + info + " took ";
    h + |f| <= |m| && m[h..h + |f|] == f
  }

  /** After the "/" come the test count in decimal, "] ", the display
      name and " took "; FieldsReadBack reads the count back. */
  lemma MessageFields(rt: RunnableTest, result: TestResult, i: nat, testCount: nat, duration: string)
    ensures HasFields(FormatTestMessage(rt, result, i, testCount, duration),
                      7 + |NatToString(i)|, NatToString(testCount), rt.info)
  {
    var head := StatusName(result.StatusOf()) + " [" + NatToString(i) + "/";
    var body := NatToString(testCount) + "] " + rt.info + " took " + duration;
    var rest := if result.Fail? then body + (": " + result.cause) else body;
    if result.Fail? {
      PrefixOfConcat(body, ": " + result.cause);
    }
    var m := FormatTestMessage(rt, result, i, testCount, duration);
    var h := 7 + |NatToString(i)|;
    LineFields(m, head, h, rest, NatToString(testCount), rt.info, duration);
  }

  /** The count field of a line reads back as the number written there. */
  lemma FieldsReadBack(m: string, h: nat, v: nat, info: string)
    requires v <= IntMax && HasFields(m, h, NatToString(v), info)
    ensures ParseInt(m[h..h + |NatToString(v)|]) == Ok(v)
  {
    var c := NatToString(v);
    assert m[h..h + |c|] == c by {
      var f := c + "] " + info + " took ";
      assert m[h..h + |c|] == m[h..h + |f|][..|c|];
    }
    ReadsBack(m, h, v);
  }

  lemma PrefixOfConcat(a: string, b: string)
    ensures (a + b)[..|a|] == a
  {
  }

  /** The fields of a line whose rest, after the head, opens with
      count "] " info " took " duration. */
  lemma LineFields(m: string, head: string, h: nat, rest: string, count: string, info: string, duration: string)
    requires m == head + rest && h == |head|
    requires var body := count + "] " + info + " took " + duration;
             |body| <= |rest| && rest[..|body|] == body
    ensures HasFields(m, h, count, info)
  {
    var f := count + "] " + info + " took ";
    var body := f + duration;
    assert m[h..] == rest;
    assert m[h..h + |f|] == rest[..|body|][..|f|];
  }

  /** A number written at position lo of m reads back as that number. */
  lemma ReadsBack(m: string, lo: nat, v: nat)
    requires v <= IntMax && lo + |NatToString(v)| <= |m|
    requires m[lo..lo + |NatToString(v)|] == NatToString(v)
    ensures ParseInt(m[lo..lo + |NatToString(v)|]) == Ok(v)
  {
    ParseIntOfNatToString(v);
  }

  lemma EndsWithNested(a: string, b: string, q: string)
    ensures EndsWith(a + (b + q), q)
  {
    assert (a + (b + q))[|a| + |b|..] == q;
  }

  /** Positions in a line laid out as status, " [", digits, "/", rest. */
  lemma LineLayout(status: string, digits: string, rest: string)
    requires |status| == 4
    ensures var m := status + " [" + digits + "/" + rest;
            && |m| == 7 + |digits| + |rest|
            && m[..4] == status && m[4..6] == " [" && m[6..6 + |digits|] == digits
            && m[6 + |digits|] == '/' && m[7 + |digits|..] == rest
  {
  }

  // ---------------------------------------------------------------------
  // Specification of the main loop

  /** The result of every test of the run list, in run order. */
  function Results(env: Env, skip: set<string>, tests: seq<RunnableTest>, invoke: nat -> Invocation): seq<TestResult>
  {
    seq(|tests|, k requires 0 <= k < |tests| => Run(env, skip, tests[k], invoke(k)))
  }

  /** How many results have status s. */
  function Count(rs: seq<TestResult>, s: Status): nat
    decreases |rs|
  {
    if rs == [] then 0 else Count(rs[..|rs| - 1], s) + (if rs[|rs| - 1].StatusOf() == s then 1 else 0)
  }

  /** The display names of the failed tests, in run order. */
  function FailedNames(tests: seq<RunnableTest>, rs: seq<TestResult>): seq<string>
    requires |tests| == |rs|
    decreases |rs|
  {
    if rs == [] then []
    else FailedNames(tests[..|tests| - 1], rs[..|rs| - 1])
         + (if rs[|rs| - 1].Fail? then [tests[|tests| - 1].info] else [])
  }

  /** The sum of the first n measured durations. */
  function TotalElapsed(elapsed: nat -> int, n: nat): int
  {
    if n == 0 then 0 else TotalElapsed(elapsed, n - 1) + elapsed(n - 1)
  }

  /** One line per test: its result, its 1-based position and the count. */
  function Messages(env: Env, skip: set<string>, tests: seq<RunnableTest>, invoke: nat -> Invocation,
                    elapsed: nat -> int, showMs: int -> string): seq<string>
  {
    seq(|tests|, k requires 0 <= k < |tests| =>
      FormatTestMessage(tests[k], Run(env, skip, tests[k], invoke(k)), k + 1, |tests|, showMs(elapsed(k))))
  }

  /** Every result has exactly one of the three statuses. */
  lemma {:induction false} CountsSum(rs: seq<TestResult>)
    ensures Count(rs, PASS) + Count(rs, SKIP) + Count(rs, FAIL) == |rs|
    decreases |rs|
  {
    if rs != [] {
      CountsSum(rs[..|rs| - 1]);
    }
  }

  /** The failure list is as long as the FAIL count. */
  lemma {:induction false} FailedNamesLength(tests: seq<RunnableTest>, rs: seq<TestResult>)
    requires |tests| == |rs|
    ensures |FailedNames(tests, rs)| == Count(rs, FAIL)
    decreases |rs|
  {
    if rs != [] {
      FailedNamesLength(tests[..|tests| - 1], rs[..|rs| - 1]);
    }
  }

  /** The failure list of a run is the failure list of its first part
      followed by that of the rest: failures are listed in run order. */
  lemma {:induction false} FailedNamesConcat(t1: seq<RunnableTest>, r1: seq<TestResult>,
                                             t2: seq<RunnableTest>, r2: seq<TestResult>)
    requires |t1| == |r1| && |t2| == |r2|
    ensures FailedNames(t1 + t2, r1 + r2) == FailedNames(t1, r1) + FailedNames(t2, r2)
    decreases |r2|
  {
    if r2 == [] {
      assert t1 + t2 == t1 && r1 + r2 == r1;
    } else {
      var t2i, r2i := t2[..|t2| - 1], r2[..|r2| - 1];
      assert (t1 + t2)[..|t1 + t2| - 1] == t1 + t2i;
      assert (r1 + r2)[..|r1 + r2| - 1] == r1 + r2i;
      FailedNamesConcat(t1, r1, t2i, r2i);
    }
  }

  function GetOrDefault(counts: map<Status, nat>, s: Status): nat
  {
    if s in counts then counts[s] else 0
  }

  /** What the main loop accumulates besides its output lines. */
  datatype Tally = Tally(counts: map<Status, nat>, failed: seq<string>, total: int)

  /** Listing one more result's failure. */
  lemma FailedStep(tests: seq<RunnableTest>, rs: seq<TestResult>, k: nat)
    requires |tests| == |rs| && k < |rs|
    ensures FailedNames(tests[..k + 1], rs[..k + 1])
            == FailedNames(tests[..k], rs[..k]) + (if rs[k].Fail? then [tests[k].info] else [])
  {
    assert rs[..k + 1][..k] == rs[..k] && tests[..k + 1][..k] == tests[..k];
  }

  /** The statusCounts map after the results rs: each status seen is
      bumped by statusCounts.put(st, statusCounts.getOrDefault(st, 0) + 1). */
  function Tallied(rs: seq<TestResult>): map<Status, nat>
    decreases |rs|
  {
    if rs == [] then map[]
    else
      var counts := Tallied(rs[..|rs| - 1]);
      var st := rs[|rs| - 1].StatusOf();
      counts[st := GetOrDefault(counts, st) + 1]
  }

  /** Extending a prefix by one element. */
  lemma PrefixStep<T>(s: seq<T>, k: nat)
    requires k < |s|
    ensures s[..k + 1] == s[..k] + [s[k]]
  {
  }

  /** Tallying one more result. */
  lemma TalliedStep(rs: seq<TestResult>, k: nat)
    requires k < |rs|
    ensures var counts := Tallied(rs[..k]);
            Tallied(rs[..k + 1]) == counts[rs[k].StatusOf() := GetOrDefault(counts, rs[k].StatusOf()) + 1]
  {
    assert rs[..k + 1][..k] == rs[..k];
  }

  /** The map holds each status's count, and a status never seen reads as 0. */
  lemma {:induction false} TalliedCounts(rs: seq<TestResult>)
    ensures forall s :: GetOrDefault(Tallied(rs), s) == Count(rs, s)
    decreases |rs|
  {
    if rs != [] {
      TalliedCounts(rs[..|rs| - 1]);
    }
  }

  /** The loop of main: run each test, count its status, add its duration,
      print its line with its 1-based index, remember a failure's name. */
  method ExecuteAll(env: Env, skip: set<string>, tests: seq<RunnableTest>, invoke: nat -> Invocation,
                    elapsed: nat -> int, showMs: int -> string)
    returns (lines: seq<string>, tally: Tally)
    ensures lines == Messages(env, skip, tests, invoke, elapsed, showMs)
    ensures forall s :: GetOrDefault(tally.counts, s) == Count(Results(env, skip, tests, invoke), s)
    ensures tally.failed == FailedNames(tests, Results(env, skip, tests, invoke))
    ensures tally.total == TotalElapsed(elapsed, |tests|)
  {
    ghost var rs := Results(env, skip, tests, invoke);
    ghost var ms := Messages(env, skip, tests, invoke, elapsed, showMs);
    var testCount := |tests|;
    var i := 1;
    var totalTestDuration := 0;
    var statusCounts: map<Status, nat> := map[];
    var failedTests: seq<string> := [];
    lines := [];
    for k := 0 to |tests|
      invariant i == k + 1
      invariant lines == ms[..k]
      invariant statusCounts == Tallied(rs[..k])
      invariant failedTests == FailedNames(tests[..k], rs[..k])
      invariant totalTestDuration == TotalElapsed(elapsed, k)
    {
      var rt := tests[k];
      var result := Run(env, skip, rt, invoke(k));
      var durationNs := elapsed(k);
      assert result == rs[k];
      TalliedStep(rs, k);
      FailedStep(tests, rs, k);

      var st := result.StatusOf();
      statusCounts := statusCounts[st := GetOrDefault(statusCounts, st) + 1];
      totalTestDuration := totalTestDuration + durationNs;
      var message := FormatTestMessage(rt, result, i, testCount, showMs(durationNs));
      assert message == ms[k];
      if st == FAIL {
        failedTests := failedTests + [rt.info];
      }
      PrefixStep(ms, k);
      lines := lines + [message];
      i := i + 1;
    }
    assert rs[..|tests|] == rs && tests[..|tests|] == tests && ms[..|tests|] == ms;
    TalliedCounts(rs);
    tally := Tally(statusCounts, failedTests, totalTestDuration);
  }

  // ---------------------------------------------------------------------
  // Runner.printSummary and the end of main

  const UsageLine: string := "Usage: java one.profiler.test.Runner TestName ..."

  /** The summary printSummary writes: the failure list when there are
      failures, then the total duration and the counts. */
  function Summary(pass: nat, skip: nat, fail: nat, failed: seq<string>, total: int, testCount: nat,
                   showMs: int -> string): (r: seq<string>)
    ensures |r| == 6 + (if fail > 0 then 1 + |failed| else 0)
    ensures fail > 0 ==> r[0] == "\nFailed tests:" && r[1..1 + |failed|] == failed
    ensures r[|r| - 6] == "\nTotal test duration: " + showMs(total) && r[|r| - 5] == "Results Summary:"
    ensures r[|r| - 4..] == ["PASS: " + NatToString(pass), "SKIP: " + NatToString(skip),
                             "FAIL: " + NatToString(fail), "TOTAL: " + NatToString(testCount)]
  {
    (if fail > 0 then ["\nFailed tests:"] + failed else [])
    + [ "\nTotal test duration: " + showMs(total),
        "Results Summary:",
        "PASS: " + NatToString(pass),
        "SKIP: " + NatToString(skip),
        "FAIL: " + NatToString(fail),
        "TOTAL: " + NatToString(testCount) ]
  }

  /** How the process ends: the usage exit, an exception before any test
      ran, the "One or more tests failed" exception after the summary, or
      a normal return. */
  datatype Verdict = Usage | Aborted(error: Fault) | TestsFailed | AllPassed

  /** Everything main prints and how it ends, given the detected facts and
      the skip set in force once it is configured. */
  function Session(env: Env, skip: set<string>, args: seq<string>, reg: Registry, invoke: nat -> Invocation,
                   elapsed: nat -> int, showMs: int -> string): (r: (seq<string>, Verdict))
    ensures r.1 == Usage <==> |args| == 0
    ensures r.1 == Usage ==> r.0 == [UsageLine]
    ensures r.1.Aborted? <==> |args| > 0 && ResolveAll(args, reg).Err?
    ensures r.1.Aborted? ==> r.0 == [] && r.1.error == ResolveAll(args, reg).error
    ensures (r.1 == TestsFailed || r.1 == AllPassed) ==>
              |ResolveAll(args, reg).value| <= |r.0|
              && r.0[..|ResolveAll(args, reg).value|] == Messages(env, skip, ResolveAll(args, reg).value, invoke, elapsed, showMs)
  {
    if |args| == 0 then ([UsageLine], Usage)
    else
      match ResolveAll(args, reg)
      case Err(e) => ([], Aborted(e))
      case Ok(tests) =>
        var rs := Results(env, skip, tests, invoke);
        var failed := FailedNames(tests, rs);
        ( Messages(env, skip, tests, invoke, elapsed, showMs)
          + Summary(Count(rs, PASS), Count(rs, SKIP), Count(rs, FAIL), failed, TotalElapsed(elapsed, |tests|),
                    |tests|, showMs),
          if |failed| > 0 then TestsFailed else AllPassed )
  }

  /** The run fails exactly when some test failed, and it does so only
      after all test lines and the whole summary have been printed; the
      summary's counts add up to the number of tests. */
  lemma SessionOutcome(env: Env, skip: set<string>, args: seq<string>, reg: Registry, invoke: nat -> Invocation,
                       elapsed: nat -> int, showMs: int -> string)
    requires |args| > 0 && ResolveAll(args, reg).Ok?
    ensures var tests := ResolveAll(args, reg).value;
            var rs := Results(env, skip, tests, invoke);
            var (lines, verdict) := Session(env, skip, args, reg, invoke, elapsed, showMs);
            && (verdict == TestsFailed <==> Count(rs, FAIL) > 0)
            && (verdict == AllPassed <==> Count(rs, FAIL) == 0)
            && Count(rs, PASS) + Count(rs, SKIP) + Count(rs, FAIL) == |tests|
            && |lines| == |tests| + 6 + (if Count(rs, FAIL) > 0 then 1 + Count(rs, FAIL) else 0)
            && lines[|lines| - 1] == "TOTAL: " + NatToString(|tests|)
            && (Count(rs, FAIL) > 0 ==>
                  && |lines| >= |tests| + 1 + Count(rs, FAIL)
                  && lines[|tests|] == "\nFailed tests:"
                  && lines[|tests| + 1..|tests| + 1 + Count(rs, FAIL)] == FailedNames(tests, rs))
  {
    var tests := ResolveAll(args, reg).value;
    var rs := Results(env, skip, tests, invoke);
    FailedNamesLength(tests, rs);
    CountsSum(rs);
  }

  // ---------------------------------------------------------------------
  // The runner's static state and main

  /** Runner's static state: the detected facts, fixed at class
      initialisation, and the skip set that configureSkipTests fills. */
  class Runner {
    const env: Env
    var skipTests: set<string>

    constructor (env: Env)
      ensures this.env == env && skipTests == {}
    {
      this.env := env;
      skipTests := {};
    }

    /** configureSkipTests: add each piece of the "skip" property, lower-cased. */
    method ConfigureSkipTests(skipProperty: Option<string>)
      modifies this
      ensures skipTests == old(skipTests) + SkipSet(skipProperty)
    {
      if skipProperty.Some? && skipProperty.value != [] {
        var pieces := Split(skipProperty.value, ',');
        for k := 0 to |pieces|
          invariant skipTests == old(skipTests) + set p | p in pieces[..k] :: ToLower(p)
        {
          assert pieces[..k + 1] == pieces[..k] + [pieces[k]];
          skipTests := skipTests + {ToLower(pieces[k])};
        }
        assert pieces[..|pieces|] == pieces;
      }
    }

    /** main, after class initialisation: usage check, skip set, discovery,
      the test loop, the summary and the final verdict. */
    method RunMain(args: seq<string>, reg: Registry, skipProperty: Option<string>, invoke: nat -> Invocation,
                   elapsed: nat -> int, showMs: int -> string)
      returns (lines: seq<string>, verdict: Verdict)
      modifies this
      ensures skipTests == if |args| == 0 then old(skipTests) else old(skipTests) + SkipSet(skipProperty)
      ensures (lines, verdict) == Session(env, skipTests, args, reg, invoke, elapsed, showMs)
    {
      if |args| == 0 {
        return [UsageLine], Usage;
      }
      ConfigureSkipTests(skipProperty);
      var found := GetRunnableTestsByName(args, reg);
      if found.Err? {
        return [], Aborted(found.error);
      }
      var allTests := found.value;
      var messages, tally := ExecuteAll(env, skipTests, allTests, invoke, elapsed, showMs);
      var summary := Summary(GetOrDefault(tally.counts, PASS), GetOrDefault(tally.counts, SKIP),
                             GetOrDefault(tally.counts, FAIL), tally.failed, tally.total, |allTests|, showMs);
      lines := messages + summary;
      verdict := if |tally.failed| > 0 then TestsFailed else AllPassed;
    }
  }

  /** The whole process as written: class initialisation, which detects
      the host before main looks at its arguments and hands detectJvm the
      version 0, then main on a fresh skip set. */
  method Launch(props: SystemProperties, home: JavaHome, args: seq<string>, reg: Registry,
                skipProperty: Option<string>, invoke: nat -> Invocation, elapsed: nat -> int,
                showMs: int -> string)
    returns (lines: seq<string>, verdict: Verdict)
    ensures StaticEnvironment(props, home).Err? ==>
              lines == [] && verdict == Aborted(StaticEnvironment(props, home).error)
    ensures StaticEnvironment(props, home).Ok? ==>
              (lines, verdict) == Session(StaticEnvironment(props, home).value, SkipSet(skipProperty),
                                          args, reg, invoke, elapsed, showMs)
  {
    var env := StaticInit(props, home);
    if env.Err? {
      return [], Aborted(env.error);
    }
    var runner := new Runner(env.value);
    lines, verdict := runner.RunMain(args, reg, skipProperty, invoke, elapsed, showMs);
    if |args| == 0 {
      assert (lines, verdict) == ([UsageLine], Usage);
    } else {
      assert runner.skipTests == SkipSet(skipProperty);
    }
  }

  /** The whole process with the corrected detection, which hands
      detectJvm the version it has read. */
  method LaunchCorrected(props: SystemProperties, home: JavaHome, args: seq<string>, reg: Registry,
                         skipProperty: Option<string>, invoke: nat -> Invocation, elapsed: nat -> int,
                         showMs: int -> string)
    returns (lines: seq<string>, verdict: Verdict)
    ensures CorrectedEnvironment(props, home).Err? ==>
              lines == [] && verdict == Aborted(CorrectedEnvironment(props, home).error)
    ensures CorrectedEnvironment(props, home).Ok? ==>
              (lines, verdict) == Session(CorrectedEnvironment(props, home).value, SkipSet(skipProperty),
                                          args, reg, invoke, elapsed, showMs)
  {
    var env := DetectEnvironment(props, home);
    if env.Err? {
      return [], Aborted(env.error);
    }
    var runner := new Runner(env.value);
    lines, verdict := runner.RunMain(args, reg, skipProperty, invoke, elapsed, showMs);
    if |args| == 0 {
      assert (lines, verdict) == ([UsageLine], Usage);
    } else {
      assert runner.skipTests == SkipSet(skipProperty);
    }
  }

  /** On the host of ZingMissedOnModernJdk, a test restricted to HotSpot
      runs as written and is skipped under the corrected detection. */
  lemma HotspotTestRunsOnlyAsWritten()
    ensures var props := SystemProperties("Linux", "amd64", "17");
            var home := JavaHome(Some(["rt.jar"]), (k: nat) => k == 0);
            var t := Test(true, [], [], [Hotspot], []);
            && StaticEnvironment(props, home).Ok? && Enabled(t, StaticEnvironment(props, home).value)
            && CorrectedEnvironment(props, home).Ok? && !Enabled(t, CorrectedEnvironment(props, home).value)
  {
    ZingMissedOnModernJdk();
  }
}
