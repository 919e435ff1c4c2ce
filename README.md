# async-profiler test runner: a verified model

This project models, in Dafny, the decision logic of `one.profiler.test.Runner`.
That class is the test runner of async-profiler's own test suite. It does five things:

- **Host detection.** It classifies the host once, when the class is initialised: operating system, CPU architecture, JVM implementation (HotSpot, OpenJ9 or Zing) and JVM specification version.
- **Discovery.** It turns the command-line names into a run list of (method, `@Test` declaration) pairs. A short package name such as `foo` is expanded to the class name `test.foo.FooTests`.
- **Filtering.** A test is skipped when its constraint record does not admit the host, or when its class name or method name, lower-cased, is in the `skip` property.
- **Running.** Each remaining test is invoked, and any throwable it raises becomes a failure carrying the test's own cause.
- **Reporting.** It prints one line per test, then a summary. After the summary it throws when any test failed.

Modules:

- `Faults`: the `Result` and `Option` wrappers, and the exceptions the runner can raise.
- `Text`: ASCII case mapping, `contains`/`startsWith`/`endsWith`, `String.split(",")` including its removal of trailing empty pieces, `Integer.parseInt` and `Integer.toString`.
- `Environment`: `detectOs`, `detectArch`, `detectJvmVersion`, `detectJvm`, and the static initialisers in their textual order.
- `Eligibility`: the `@Test` constraint record and `enabled`.
- `Discovery`: the registry that stands in for reflection, short-name expansion, and both `getRunnableTests` overloads.
- `TestRunner`: the skip set, `run`, `formatTestMessage`, the loop of `main`, `printSummary`, the final verdict, and the class `Runner`. That class holds the static state: the detected facts and the `skipTests` set.

Inputs that stand for the environment:

- The system properties `os.name`, `os.arch`, `java.vm.specification.version` and `skip`.
- What `detectJvm` can observe of `java.home`. This is the `lib` listing, or none when `listFiles` returns null, and whether `etc/zing` exists after k parent-directory steps.
- The class registry. Each class name maps to its methods in `getMethods()` order. Each method has its declaring class, its name, and its `@Test` declarations in `getAnnotationsByType` order.
- `invoke(k)`: how running the test at run position k ended. It returned, threw, or threw through reflection with the test's own throwable wrapped.
- `elapsed(k)`: its measured duration in nanoseconds.
- `showMs`: the `"%.1f ms"` rendering of a duration.

Two consequences of the code that are easy to miss:

- **Detection runs before the usage check.** The host facts are static initialisers, so they run before `main` checks its arguments. A host that cannot be classified aborts even a run without arguments. `TestRunner.Launch` models this.
- **Split removes trailing empty pieces.** `String.split(",")` drops trailing empty pieces, so `skip=a,,` adds only `a`. An empty piece in the middle, as in `skip=a,,b`, adds the empty string.

## Model

| member | source | states |
|---|---|---|
| `Text.ContainsAt` | test/one/profiler/test/Runner.java:31-54 | `contains` as used by the detectors holds exactly when the token occurs at some position of the string |
| `Text.ParseInt` | test/one/profiler/test/Runner.java:99 | `Integer.parseInt` accepts exactly an optional sign followed by at least one digit whose value fits in 32 bits; the result is that value and every other input is a NumberFormatException |
| `Text.ParseIntOfNatToString` | test/one/profiler/test/Runner.java:99 | parsing the decimal rendering of any non-negative int gives the int back |
| `Text.ParseIntOfNegative` | test/one/profiler/test/Runner.java:99 | the same for negative ints written with a minus sign |
| `Text.DigitsValueOfNatToString` | test/one/profiler/test/Runner.java:204 | the digits printed for an index or a count read back as that number |
| `Text.Pieces` | test/one/profiler/test/Runner.java:196 | the pieces between commas never contain a comma and there is at least one |
| `Text.JoinPieces` | test/one/profiler/test/Runner.java:196 | joining the pieces with the separator gives back the property text |
| `Text.TrimTrailingEmpty` | test/one/profiler/test/Runner.java:196 | `split` keeps a prefix of the pieces that does not end in an empty string, and what it drops is empty |
| `Text.Split` | test/one/profiler/test/Runner.java:196 | `split(",")` gives a prefix of the comma pieces, none of them containing a comma; it never ends in an empty piece, and every piece it drops is empty |
| `Text.SplitKeepsNonEmpty` | test/one/profiler/test/Runner.java:196 | every non-empty piece survives the split, and the split holds only pieces |
| `Environment.DetectOs` | test/one/profiler/test/Runner.java:29-39 | every unknown name is UnknownOs, and the result is LINUX exactly when the lower-cased name contains "linux", whatever else it contains; `DetectOsByTable` gives the full table |
| `Environment.DetectArch` | test/one/profiler/test/Runner.java:41-59 | every unknown name is UnknownArch, and the result is X64 exactly when the name contains x86_64 or amd64; `DetectArchByTable` gives the full table |
| `Environment.FirstMatch` | test/one/profiler/test/Runner.java:29-59 | a table lookup returns the value of the first matching rule, none of the earlier rules match it, and nothing is returned only when no rule matches |
| `Environment.DetectOsByTable` | test/one/profiler/test/Runner.java:29-39 | `detectOs` is the first match of the lower-cased `os.name` against linux, mac, windows in that order, and an unknown name is the error |
| `Environment.DetectArchByTable` | test/one/profiler/test/Runner.java:41-59 | `detectArch` is the case-sensitive first match against x86_64 or amd64, aarch64, arm, ppc64le, riscv64, loongarch64 and finally a suffix 86, and an unknown name is the error |
| `Environment.X64BeforeX86` | test/one/profiler/test/Runner.java:43-56 | any name that contains x86_64 or amd64 is X64 |
| `Environment.X86IsLastResort` | test/one/profiler/test/Runner.java:55-56 | X86 is given only to a name that ends in 86 and matches none of the earlier tokens |
| `Environment.DetectJvmVersion` | test/one/profiler/test/Runner.java:94-100 | one leading "1." is removed when present, and the rest is parsed as an int |
| `Environment.JvmVersionForms` | test/one/profiler/test/Runner.java:94-100 | "N" and "1.N" both give N (so "1.8" gives 8 and "17" gives 17) |
| `Environment.VersionPrefixStrippedOnce` | test/one/profiler/test/Runner.java:96-99 | only one prefix is stripped: "1.1.8" and "1." are errors |
| `Environment.DetectJvm` | test/one/profiler/test/Runner.java:61-92 | the result is OPENJ9 exactly when the lib listing holds J9TraceFormat.dat; otherwise it is ZING exactly when etc/zing exists after one parent step for version 8 or less plus one for macOS; otherwise HOTSPOT; within this model it never fails (the one failure of the source is listed under Left out) |
| `Environment.StaticInit` | test/one/profiler/test/Runner.java:21-24 | the static initialisers fail exactly when the OS, the architecture or the version cannot be read, and detectJvm sees the version as 0 |
| `Environment.DetectEnvironment` | test/one/profiler/test/Runner.java:21-24 | the corrected detection has the same error cases and gives detectJvm the parsed version |
| `Environment.StaticInitAlwaysStripsJre` | test/one/profiler/test/Runner.java:76-78 | as written, the JDK 8 parent step is always taken, whatever the real version |
| `Environment.ZingMissedOnModernJdk` | test/one/profiler/test/Runner.java:76-88 | on a Linux JDK 17 Zing with etc/zing directly in java.home, the code as written reports HOTSPOT and the corrected detection reports ZING |
| `Environment.DetectionsAgreeOnLegacyOrNonZing` | test/one/profiler/test/Runner.java:76-88 | both detections agree on every JDK 8 or older, and on every host with no Zing marker in reach |
| `Eligibility.Enabled` | test/one/profiler/test/Runner.java:102-128 | `enabled` holds exactly when the test is enabled, each of the os, arch and jvm lists is empty or holds the host's value, and the version lies in the window given by the list's first and last entries, if there is one |
| `Eligibility.DisabledNeverEnabled` | test/one/profiler/test/Runner.java:103-105 | `enabled()==false` always gives false |
| `Eligibility.UnconstrainedAlwaysEnabled` | test/one/profiler/test/Runner.java:102-128 | an enabled test with no constraints is eligible on every host |
| `Eligibility.VersionBoundsInclusive` | test/one/profiler/test/Runner.java:122-125 | versions equal to the first or the last bound pass, and the first bound minus one and the last bound plus one fail |
| `Eligibility.OnlyVersionEndsMatter` | test/one/profiler/test/Runner.java:122-125 | two version lists with the same first and last entries decide alike |
| `Discovery.GetRunnableTests` | test/one/profiler/test/Runner.java:151-159 | the run list of one class is its methods' declarations, method by method, each method's in declaration order |
| `Discovery.FlattenLength` | test/one/profiler/test/Runner.java:151-159 | one entry per (method, declaration) pair |
| `Discovery.FlattenAt` | test/one/profiler/test/Runner.java:151-159 | declaration j of method i sits at offset j after all entries of the earlier methods |
| `Discovery.FlattenConcat` | test/one/profiler/test/Runner.java:153-157 | the run list of two method lists is the first's followed by the second's |
| `Discovery.ExpandName` | test/one/profiler/test/Runner.java:164-168 | a name with no '.' and a lower-case first letter becomes "test." + name + "." + capitalised name + "Tests"; an empty name is an index error; every other name is kept |
| `Discovery.ExpandNameIdempotent` | test/one/profiler/test/Runner.java:164-168 | an expanded name expands to itself |
| `Discovery.ExpandNameExample` | test/one/profiler/test/Runner.java:164-168 | foo expands to test.foo.FooTests; qualified and capitalised names are kept |
| `Discovery.GetRunnableTestsByName` | test/one/profiler/test/Runner.java:161-172 | the run list of the command-line names, as the registry lookup of each expanded name gives it, or the first name's failure |
| `Discovery.ResolveAll` | test/one/profiler/test/Runner.java:161-172 | no names give an empty run list, and a single name gives exactly that name's outcome; the `ResolveAll` and `Gather` lemmas give the rest |
| `Discovery.ResolveAllOk` | test/one/profiler/test/Runner.java:161-172 | discovery succeeds exactly when every name expands and names a known class |
| `Discovery.ResolveAllFirstError` | test/one/profiler/test/Runner.java:161-172 | a failure is that of the first name that does not resolve, and every name before it resolves |
| `Discovery.ResolveAllConcat` | test/one/profiler/test/Runner.java:163-170 | classes are run in the order their names were given |
| `Discovery.GatherPrefixError` | test/one/profiler/test/Runner.java:169 | once one name fails, discovery fails with that error whatever follows |
| `Discovery.GatherOk` | test/one/profiler/test/Runner.java:161-172 | the fail-fast concatenation succeeds exactly when every per-name outcome does |
| `Discovery.GatherFirstError` | test/one/profiler/test/Runner.java:161-172 | its failure is the first failing per-name outcome, and every outcome before it succeeded |
| `Discovery.GatherConcat` | test/one/profiler/test/Runner.java:163-170 | the fail-fast concatenation of two successful outcome lists is the concatenation of their run lists |
| `TestRunner.SkipSet` | test/one/profiler/test/Runner.java:193-200 | an absent or empty `skip` property adds nothing, and every member is lower-case and free of commas |
| `TestRunner.SkipSetMembers` | test/one/profiler/test/Runner.java:193-200 | every non-empty comma-separated piece of the property, lower-cased, is in the skip set, and the set holds only lower-cased pieces |
| `TestRunner.PiecesWithoutSeparator` | test/one/profiler/test/Runner.java:196 | a property without commas is one piece |
| `TestRunner.Run` | test/one/profiler/test/Runner.java:130-149 | `run` gives Skip exactly when the test is ineligible or its lower-cased class or method name is in the skip set; otherwise it gives Pass exactly when the invocation returned, and a failure carries the throwable, with a reflective wrapper removed |
| `TestRunner.SkipDoesNotInvoke` | test/one/profiler/test/Runner.java:131-133 | a skipped test's result does not depend on its invocation |
| `TestRunner.EitherNameSkips` | test/one/profiler/test/Runner.java:131 | a match on the class name or on the method name alone skips the test |
| `TestRunner.ClassNamedInProperty` | test/one/profiler/test/Runner.java:130-133 | skip=footests skips every test of class FooTests whatever its constraints |
| `TestRunner.FailureKeepsCause` | test/one/profiler/test/Runner.java:142-145 | a throwing test fails with its own cause, whether or not reflection wrapped it |
| `TestRunner.FormatTestMessage` | test/one/profiler/test/Runner.java:202-209 | a report line starts with its status and " ["; `MessageShape` and `MessageFields` locate every field but the duration |
| `TestRunner.MessageShape` | test/one/profiler/test/Runner.java:202-209 | a report line opens with the status and " [", its index reads back as i and is followed by "/", and a failure line ends with ": " and the cause |
| `TestRunner.MessageFields` | test/one/profiler/test/Runner.java:202-209 | right after the "/" a report line holds the test count in decimal, then "] ", the display name and " took " |
| `TestRunner.FieldsReadBack` | test/one/profiler/test/Runner.java:204 | the count field located by `MessageFields` reads back by `Integer.parseInt` as the test count |
| `TestRunner.LineFields` | test/one/profiler/test/Runner.java:204 | any string made of a head and a rest that opens with count, "] ", name, " took " and a duration holds those fields right after the head |
| `TestRunner.CountsSum` | test/one/profiler/test/Runner.java:248 | the PASS, SKIP and FAIL counts add up to the number of tests run |
| `TestRunner.FailedNamesLength` | test/one/profiler/test/Runner.java:251-253 | the failure list is as long as the FAIL count |
| `TestRunner.FailedNamesConcat` | test/one/profiler/test/Runner.java:251-253 | failures are listed in run order |
| `TestRunner.ExecuteAll` | test/one/profiler/test/Runner.java:239-256 | after the loop there is one line per test, the k-th formatted from the k-th result with 1-based index k + 1 and the test count; the counts map gives each status's count, 0 for one never seen; the failure list is the failed tests' names in run order; the total is the sum of the durations |
| `TestRunner.TalliedCounts` | test/one/profiler/test/Runner.java:246-248 | bumping statusCounts with getOrDefault(status, 0) + 1 once per result leaves each status's count in the map |
| `TestRunner.Summary` | test/one/profiler/test/Runner.java:211-225 | printSummary prints six lines, preceded by the "Failed tests:" header and the failed names when there are failures; then come the total duration line and the "Results Summary:" header; the last four are the PASS, SKIP, FAIL and TOTAL counts |
| `TestRunner.Session` | test/one/profiler/test/Runner.java:227-266 | main ends with the usage exit exactly when there are no arguments, and then prints only the usage line; it aborts exactly when discovery fails, with discovery's error and nothing printed; otherwise its output opens with one line per test |
| `TestRunner.SessionOutcome` | test/one/profiler/test/Runner.java:258-266 | the run ends in the failure exception exactly when the FAIL count is positive and passes otherwise; the output is one line per test followed by the summary, which, when there are failures, opens right after the per-test lines with the "Failed tests:" header and the failed names in run order, and whose last line is TOTAL with the number of tests; the PASS, SKIP and FAIL counts add up to that number |
| `TestRunner.Runner.constructor` | test/one/profiler/test/Runner.java:21-26 | the static state starts with the detected facts and an empty skip set |
| `TestRunner.Runner.ConfigureSkipTests` | test/one/profiler/test/Runner.java:193-200 | configureSkipTests adds exactly the skip set of the property to skipTests |
| `TestRunner.Runner.RunMain` | test/one/profiler/test/Runner.java:227-266 | main prints the usage line and exits without arguments; otherwise it configures the skip set, aborts on a discovery failure before any test runs, and otherwise prints every test line, then the summary, and ends as the session specification says |
| `TestRunner.Launch` | test/one/profiler/test/Runner.java:21-267 | the process as written: a host that cannot be classified aborts before main runs, even without arguments; otherwise main runs on the facts of the static initialisers, detectJvm having seen version 0, with an empty initial skip set |
| `TestRunner.LaunchCorrected` | test/one/profiler/test/Runner.java:21-267 | the same process with detectJvm given the version it has read |
| `TestRunner.HotspotTestRunsOnlyAsWritten` | test/one/profiler/test/Runner.java:23-24 | on the Linux JDK 17 Zing host, a test restricted to HOTSPOT is eligible as written and is skipped under the corrected detection |

## Findings

| source | as written | input that shows it | evidently intended | confidence | as-written member | corrected member |
|---|---|---|---|---|---|---|
| test/one/profiler/test/Runner.java:23-24 | `currentJvm` is initialised before `currentJvmVersion`, so `detectJvm` reads `currentJvmVersion` while it still holds its default 0. The test `currentJvmVersion <= 8` at line 76 always holds, and the `/jre` parent step is always taken | os.name=Linux, os.arch=amd64, version 17, no J9 marker, etc/zing present directly in java.home: reports HOTSPOT | the parent step is taken only on JDK 8 or older, so the host above is ZING | medium, not executed | `Environment.StaticInit`, `Environment.ZingMissedOnModernJdk`, `TestRunner.Launch`, `TestRunner.HotspotTestRunsOnlyAsWritten` | `Environment.DetectEnvironment`, `TestRunner.LaunchCorrected` |

`TestRunner.Launch` models the program as written; `TestRunner.LaunchCorrected` is the same process on the corrected detection. `StaticInitAlwaysStripsJre` and `DetectionsAgreeOnLegacyOrNonZing` show that the two differ only on a JDK newer than 8 with a Zing marker in reach.

## Left out

- Reflection is not modelled. `Class.forName`, `getMethods`, `getAnnotationsByType`, construction of the test object and `Method.invoke` are replaced by the registry and the `invoke` input. Class loading can also fail in ways other than ClassNotFoundException, and those failures are not modelled.
- `TestProcess` is not modelled. Its try-with-resources lifetime and its log directory (`logDir` and `testLogDir`) belong to an external subprocess collaborator. Whatever its construction or closing throws is part of `invoke`.
- `configureLogging` and every `log.log` call are not modelled. The logging configuration and output are left out, and so is one error path: when the `logLevel` property is set to a value `Level.parse` rejects (line 184), the IllegalArgumentException aborts `main` after the usage check and before discovery. `TestRunner.Session` and `TestRunner.Runner.RunMain` do not have that outcome.
- `System.nanoTime` and the `"%.1f ms"` formatting are not modelled. They are clock reads and floating point. Durations are inputs, and their rendering is the `showMs` input.
- `System.out.println` and `System.exit(1)` are not modelled. Printed lines are a sequence of strings, and the way the process ends is a `Verdict`.
- The per-test display name is not computed. `RunnableTest.testInfo()` and `className()` are defined in RunnableTest.java, and that file is not part of this model; both arrive with the registry.
- TestResult.java, TestStatus.java and the `Test` annotation are not part of this model. Their shapes are taken from how `Runner` uses them.
- `String.toLowerCase`, `Character.isLowerCase`, `Character.toUpperCase` and the digits accepted by `Integer.parseInt` cover ASCII only. Locale-dependent and other Unicode case mappings, and non-ASCII digits, are not modelled.
- `os.name`, `os.arch`, `java.vm.specification.version` and `java.home` are taken to be present, as the JVM guarantees. Their absence, and the NullPointerException it would cause, is not modelled. An absent `skip` property is modelled.
- `getParentFile()` returning null is not modelled. When the first parent step already gives null, the second step at line 82 calls `getParentFile()` on null. That happens on macOS with a java.home of "/", because detectJvm always takes the first step. The NullPointerException then aborts static initialisation. `Environment.DetectJvm` and `Environment.StaticInit` do not have that failure, and `zingMarkerAt` only says whether `etc/zing` exists after k steps.
- Overflow is not modelled. `totalTestDuration` is a `long` and the index `i` is an `int`; both are unbounded integers here, so the model does not wrap around.
- Java's `HashSet` and `HashMap` are modelled as Dafny `set` and `map`.
- `TestRunner.MessageFields`: does not locate the duration after " took ", because the duration arrives as an opaque rendered string; a failure line's cause is located from the end of the line by `MessageShape` instead.
