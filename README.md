# minitest in Dafny

A model of minitest, a small C++ testing framework, and proofs about it. A test
executable registers its test cases with `TEST_CASE`. Its `main` hands the command line to
`MINITEST_RUN_TESTS`. On that line the framework acts on a directive: it prints help, lists
the test cases, runs one by name or by index, or discovers the test cases for CTest. The
standalone tool `minitest_discover_tests` runs a test executable with the listing
directive, parses what it prints and writes a CTest file that registers every test case.

The model has seven modules:

- `Common` (common.dfy): `Option`/`Result`, the string operations the C++ code uses
  (`find`, `rfind`, `find_last_of`, `std::replace`, `getline`), decimal formatting and
  line joining.
- `MinitestH` (minitest_h.dfy): the public header.
  - The exit codes and the directive strings.
  - The exception types and how a `catch` clause selects an exception.
  - Every ASSERT_ / EXPECT_ / FAIL / SUCCEED check. A test function is a sequence of
    `Step`s, and `Exec` runs it against the expectation latch.
  - `MINITEST_RUN_TESTS`.
- `Registry` (registry.dfy): the `std::map` of test cases, kept as its entries in
  ascending name order, with registration by `auto_reg_test_case`.
- `CTestText` (ctest_text.dfy): the `add_test` and `set_tests_properties` lines that both
  discovery paths write.
- `Runner` (runner.dfy): everything minitest.cpp does, as functions of the process state.
  - Running one test case and checking the latch afterwards.
  - The two exception regimes of `run_test_case`.
  - The `stoul` of the index operand.
  - The left-to-right scan of argv by `run_test`.
  - The listing text and the discovery block.
- `Minitest` (minitest.dfy): the imperative code of minitest.cpp.
  - The class `Framework` holds the three process-wide variables: the registry,
    `expectation_failed` and `silent_mode`.
  - Its methods (registration, the run helpers, the listing and discovery loops,
    `run_test`) are proved to leave the state and return what the `Runner` functions
    say.
- `DiscoverTests` (discover_main.dfy): the `minitest_discover_tests` tool.
  - Splitting the captured output and selecting the lines between the two `guid` lines.
  - The pattern `([0-9]+):(.+)\((.+):(.+)\)` and its leftmost-match search.
  - The two emitted lines per test case and the placeholder.
  - The rewrite of `CTestTestfile.cmake`.
  - `main` with all its failure paths.

The main results:

- `DiscoveryPathsAgree`: parsing a listing printed by `list_registered_test_cases` and
  writing the tool's lines gives exactly the block `discover_test_case` writes for the
  same registry. This holds when:
  - the tool's `argv[1]` is the same string as the path `discover_test_case` writes;
    otherwise the blocks differ (`BlockLinesExe`);
  - every location is a TEST_CASE location `file:line`, and every name and file is
    non-empty, holds no line break, and the file holds no '(';
  - `guid` holds no ':' and no line break;
  - the lines printed before the listing do not include `guid`, and no line printed
    around it holds a newline.
- `ParseListLine`: every listed line parses back into its index, name, file and line,
  when the name, file and line are non-empty and hold no line break, the file holds no
  '(' and the line no ':' (see the last bullet of the next section).
- `RegistrationOrderIrrelevant`: the order in which test cases register does not change
  the registry.
- `RerunKeepsConfig`: rerunning the tool leaves the configuration file as it was.
- `InvokeVerdict`, `RegimesCompared` and the `Dispatch*` lemmas: what exit code or
  exception each outcome of a test function gives, in each mode.

Verify with:
`dafny verify --resource-limit 2000000 --verification-time-limit 0 --warn-contradictory-assumptions *.dfy`.

## Behaviour of the code worth knowing

- `--minitest-help` prints the help and returns `MINITEST_SUCCESS` at once, without
  looking at the arguments after it (minitest/minitest.cpp:263-281).
- The expectation latch is checked, and cleared, only when the test function returns
  normally. An exception out of the test function leaves the latch set for the next run
  in the same process (`Invoke`, `InvokeVerdict`).
- A `catch (const minitest_assertion_failure &)` also selects every class derived from
  it. So ASSERT_THROW rethrows a derived class even when it is the expected type, and
  EXPECT_THROW, which has no such clause, accepts it (`DerivedAssertionFailure`).
  `run_test_case` gives FAILURE for a derived class in both modes (`RunTestCase`).
- `MINITEST_RUN_TESTS` swallows a `minitest_do_nothing` wherever it comes from, also
  one thrown by a test body and let out by non-silent `run_test_case` (`RunTestsMacro`).
- The tool writes its first argument as given into `add_test`. `discover_test_case`
  writes the absolute path of `argv[0]` with '/' separators. The two blocks agree
  exactly when those two strings are equal (`DiscoveryPathsAgree`, `BlockLinesExe`).
- A run-nth operand that `stoul` rejects is not caught by `run_test_case`. Its
  `std::invalid_argument` or `std::out_of_range` escapes `run_test` in both modes, after
  the internal directive has already set silent mode (`DispatchMalformedIndex`).
- `minitest_discover_tests`:
  - `main` returns `EXIT_SUCCESS` on every path through its `try` (`ToolMain`).
  - A line that fails to parse leaves the tests file written up to that line, and the
    configuration file untouched.
- The listing round trip needs only that a test case's file holds no '(' (so that the
  last '(' is the one before the file) and that neither its name nor its file holds a
  line break. The line number is decimal, so it holds no ':'. A ')' anywhere, or a ':'
  in the name or the file, does no harm: the greedy groups pick the last ')', the last
  ':' at least two places before it and the last '(' at least two places before that
  (groups 3 and 4 are non-empty).

## Model

| member | source | states |
|---|---|---|
| `Common.FindFrom` | minitest/minitest_discover_tests/main.cpp:72 | `find(sub, from)`: the result is an occurrence at or after `from` with none between; `None` exactly when nothing occurs from `from` on |
| `Common.FindLast` | minitest/minitest.cpp:199 | the last occurrence: it occurs there and nowhere after; `None` when it occurs nowhere |
| `Common.IndexOf` | minitest/minitest_discover_tests/main.cpp:117 | the first index holding `c`, none before it; `None` exactly when `c` is absent |
| `Common.LastIndexOf` | minitest/minitest.cpp:221 | `find_last_of(c)`: an index holding `c` with no `c` after it; `None` when `c` is absent |
| `Common.ReplaceChar` | minitest/minitest.cpp:225 | `std::replace` over a string, as also at minitest_discover_tests/main.cpp:131; stated by `ReplaceCharAbsent` and `ReplaceCharAppend` |
| `Common.ReplaceCharAbsent` | minitest/minitest.cpp:225 | `std::replace` changes nothing when the character does not occur |
| `Common.ReplaceCharAppend` | minitest/minitest.cpp:225 | `std::replace` works character by character: it distributes over concatenation |
| `Common.GetLines` | minitest/minitest_discover_tests/main.cpp:70 | the lines `getline` reads hold no newline |
| `Common.GetLinesJoin` | minitest/minitest_discover_tests/main.cpp:70 | reading back, with `getline`, lines written each with its newline gives the same lines |
| `Common.JoinLines` | minitest/minitest_discover_tests/main.cpp:74-75 | lines written each followed by '\n'; stated by `JoinLinesAppend`, `JoinLinesSnoc` and `GetLinesJoin` |
| `Common.JoinLinesAppend` | minitest/minitest.cpp:210-232 | writing two groups of lines one after the other writes their concatenation |
| `Common.JoinLinesSnoc` | minitest/minitest_discover_tests/main.cpp:74-75 | writing one more line appends it and its newline |
| `Common.NatStr` | minitest/minitest.cpp:103 | `format("{}", n)` is a non-empty string of decimal digits |
| `Common.NatStrValue` | minitest/minitest.cpp:216-217 | the digits written for `n` have the value `n` |
| `Common.NatStrLength` | minitest/minitest.cpp:103 | the decimal text of `n > 0` has as many digits as `count_num_width(n)` counts, and "0" has one |
| `Common.DigitsBounds` | minitest/minitest.cpp:85-94 | a positive number with `w` digits lies in `[10^(w-1), 10^w)` |
| `Common.DigitsMonotone` | minitest/minitest.cpp:100 | a smaller number never has more digits, so the width of the size fits every index |
| `Common.PadLeft` | minitest/minitest.cpp:103 | the right-aligned `{0:{1}}` field; `PadLeftWidth` states its width and `Runner.ListingShape` its shape in a listed line |
| `Common.PadLeftWidth` | minitest/minitest.cpp:103 | a right-aligned field fitting its width is exactly that wide |
| `CTestText.AddTestLine` | minitest/minitest.cpp:216-217 | the `add_test` line, written the same way by minitest_discover_tests/main.cpp:133-135; `DiscoverTests.AddTestLineExe` states that it determines the executable string |
| `CTestText.SetTestPropertiesLine` | minitest/minitest.cpp:226-228 | the `set_tests_properties` line, written the same way by minitest_discover_tests/main.cpp:137-141; `DiscoverTests.SameLinesAsInProcess` states that both programs write the same one |
| `MinitestH.ConstantsDistinct` | minitest/include/Atliac/minitest.h:45-66 | SUCCESS is 0 and FAILURE is 1, and the six directive strings are pairwise different; five are the header's constants, and the help flag is the literal of minitest/minitest.cpp:263 |
| `MinitestH.Catches` | minitest/include/Atliac/minitest.h:214-221 | whether `catch (const t &)` selects an exception: by its class or a public base, `std::exception` selecting every standard one; its use is stated by `AssertThrowSemantics`, `ExpectThrowMirrorsAssert`, `DerivedAssertionFailure` and `RunTestsMacro` |
| `MinitestH.IsAssertionFailure` | minitest/minitest.cpp:156-159 | what `catch (const minitest_assertion_failure &)` selects: that class and every class derived from it; stated through `RunTestCase`, `InvokeVerdict`, `RegimesCompared` and `DerivedAssertionFailure` |
| `MinitestH.Exec` | minitest/include/Atliac/minitest.h:170-175 | a test function's body run statement by statement from a latch, ending at the first statement that raises; its meaning is stated by `ExecAppend`, `ExecKeepsLatch` and `PassingBodyIsNeutral` |
| `MinitestH.StepExec` | minitest/include/Atliac/minitest.h:182-349 | the effect of each check macro on how the code ends and on the latch; stated case by case by the `*Semantics`, `*MirrorsAssert` and `DerivedAssertionFailure` rows and by `StepKeepsLatch` |
| `MinitestH.ExecAppend` | minitest/include/Atliac/minitest.h:170-175 | a test body runs its statements in order: the second part runs only if the first returned, with the latch the first left |
| `MinitestH.ExecKeepsLatch` | minitest/include/Atliac/minitest.h:272-349 | no check clears the expectation latch; once set during a body it stays set |
| `MinitestH.StepKeepsLatch` | minitest/include/Atliac/minitest.h:182-349 | the same for a single check, nested THROW operands included |
| `MinitestH.AssertTrueFalseSemantics` | minitest/include/Atliac/minitest.h:182-193 | ASSERT_TRUE/ASSERT_FALSE do nothing when they pass, and raise the assertion failure and skip the rest of the body when they fail |
| `MinitestH.FailSucceedSemantics` | minitest/include/Atliac/minitest.h:194-202 | FAIL always raises the assertion failure; SUCCEED is a no-op |
| `MinitestH.ExpectTrueFalseSemantics` | minitest/include/Atliac/minitest.h:272-284 | EXPECT_TRUE/EXPECT_FALSE never raise; they set the latch exactly when they fail |
| `MinitestH.AssertThrowSemantics` | minitest/include/Atliac/minitest.h:203-248 | ASSERT_THROW passes iff the operand raises something that is not an assertion failure (nor of a class derived from it) and that its handler selects; an assertion failure from the operand, derived ones included, is rethrown unchanged; every other case raises the assertion failure |
| `MinitestH.AssertNoThrowSemantics` | minitest/include/Atliac/minitest.h:250-270 | ASSERT_NO_THROW passes iff the operand returns normally; every exception becomes the assertion failure |
| `MinitestH.ExpectNoThrowMirrorsAssert` | minitest/include/Atliac/minitest.h:329-349 | EXPECT_NO_THROW classifies as ASSERT_NO_THROW does, setting the latch instead of raising |
| `MinitestH.ExpectThrowMirrorsAssert` | minitest/include/Atliac/minitest.h:286-327 | EXPECT_THROW never raises; where the operand raises no assertion failure it fails exactly where ASSERT_THROW fails; an assertion failure from the operand, which ASSERT_THROW rethrows, it accepts when its handler selects it and otherwise records as a failure |
| `MinitestH.DerivedAssertionFailure` | minitest/include/Atliac/minitest.h:203-327 | for a class `D` derived from `minitest_assertion_failure`, `ASSERT_THROW(throw D{}, D)` rethrows the `D`, while `EXPECT_THROW(throw D{}, D)` passes |
| `MinitestH.PassingBodyIsNeutral` | minitest/include/Atliac/minitest.h:182-197 | a body of passing checks returns normally and leaves the latch as it was |
| `MinitestH.RunTestsMacro` | minitest/include/Atliac/minitest.h:137-146 | MINITEST_RUN_TESTS returns `run_test`'s code, falls through exactly on a `minitest_do_nothing` (from the scan or propagated out of a test body), lets every other exception unwind unchanged, and aborts on an abort |
| `Registry.Less` | minitest/minitest.cpp:46 | the order of the map's `string_view` keys; stated to be a strict total order by `LessIrreflexive`, `LessTransitive`, `LessTrichotomy` and `LessAsymmetric` |
| `Registry.LessIrreflexive` | minitest/minitest.cpp:46 | no name orders before itself in the map's order |
| `Registry.LessTransitive` | minitest/minitest.cpp:46 | the map's order on names is transitive |
| `Registry.LessTrichotomy` | minitest/minitest.cpp:46 | any two different names are ordered one way or the other |
| `Registry.LessAsymmetric` | minitest/minitest.cpp:46 | two names are never ordered both ways |
| `Registry.Insert` | minitest/minitest.cpp:327 | inserting a new name keeps the entries strictly sorted, adds one entry, and holds exactly the old entries and the new one |
| `Registry.InsertNames` | minitest/minitest.cpp:327 | insertion adds exactly the new name to the set of names |
| `Registry.Find` | minitest/minitest.cpp:71 | `contains`/lookup: finds a registered entry with that name, and `None` exactly when the name is not registered |
| `Registry.SortedNamesCount` | minitest/minitest.cpp:100 | the map's size equals its number of distinct names |
| `Registry.Nth` | minitest/minitest.cpp:117-118 | `advance(begin(), n)` on the sorted entries; `NthIsRank` states that it reaches the entry with exactly `n` smaller names |
| `Registry.NthIsRank` | minitest/minitest.cpp:117-118 | advancing `n` steps from `begin()` reaches the entry with exactly `n` smaller names |
| `Registry.SortedUnique` | minitest/minitest.cpp:46 | two sorted registries with the same entries are identical |
| `Registry.Register` | minitest/minitest.cpp:313-334 | `auto_reg_test_case` refuses (exit FAILURE) exactly a null, empty or already registered name; otherwise it adds exactly its entry, keeping the order |
| `Registry.RegisterAll` | minitest/minitest.cpp:313-334 | registrations in sequence keep the registry sorted |
| `Registry.RegisterAllSucceeds` | minitest/minitest.cpp:317-326 | a series of registrations succeeds iff every name is non-null, non-empty, new, and no two are equal |
| `Registry.RegisterAllContents` | minitest/minitest.cpp:327 | after them the registry holds exactly the earlier entries and one per registration |
| `Registry.RegistrationOrderIrrelevant` | minitest/minitest.cpp:46-52 | the same registrations in any static-initialisation order give the same registry |
| `Runner.CheckExpectation` | minitest/minitest.cpp:31-38 | `check_expectation_failure` clears the latch, and raises the assertion failure exactly when it was set |
| `Runner.Invoke` | minitest/minitest.cpp:75-77 | an exception from the test function skips the check and keeps its latch; a normal return is followed by the check |
| `Runner.RunRegistered` | minitest/minitest.cpp:68-83 | an unknown name raises the assertion failure without running anything; a known one runs its own test function |
| `Runner.RunNth` | minitest/minitest.cpp:108-121 | an index not below the size raises the assertion failure without running anything; otherwise the n-th test case in name order runs |
| `Runner.RunTestCase` | minitest/minitest.cpp:142-180 | SUCCESS iff the call returned; FAILURE for an assertion failure of any class derived from it, in both modes; another exception escapes in non-silent mode and is FAILURE in silent mode |
| `Runner.InvokeVerdict` | minitest/minitest.cpp:142-180 | the verdict by how the body ends: SUCCESS for a clean return, FAILURE for a return after a failed expectation or for an assertion failure (derived classes included), the mode's rule for other exceptions; the latch after each |
| `Runner.RegimesCompared` | minitest/minitest.cpp:147-179 | silent mode never lets an exception out, and the two modes differ exactly on exceptions that no `catch (const minitest_assertion_failure &)` selects |
| `Runner.DigitPrefix` | minitest/minitest.cpp:298 | the leading run of digits is a prefix, all digits, and is followed by a non-digit if anything |
| `Runner.ParseIndex` | minitest/minitest.cpp:298 | `stoul`: the value of the leading digits; `invalid_argument` iff the operand does not start with a digit; `out_of_range` iff the value exceeds 2^64-1 |
| `Runner.ParseIndexOfNatStr` | minitest/minitest.cpp:216-217 | the index discovery writes is read back by `stoul` as exactly that index |
| `Runner.DirectiveAt` | minitest/minitest.cpp:263-307 | the if/else-if chain of `run_test` for one argument, with the operand counts it checks; stated by `DirectiveOperands` |
| `Runner.DirectiveOperands` | minitest/minitest.cpp:261-307 | help and list need no operand; a run directive is recognised iff one operand follows, discovery iff two do; operands are the following arguments |
| `Runner.FirstSomeNone` | minitest/minitest.cpp:261-310 | the scan finds nothing exactly when no argument starts a directive |
| `Runner.FirstSomeLeftmost` | minitest/minitest.cpp:261-308 | what the scan finds is at a position before which nothing was recognised |
| `Runner.FirstSomeFinds` | minitest/minitest.cpp:261-308 | the first recognised position decides |
| `Runner.Scan` | minitest/minitest.cpp:261-308 | the left-to-right scan of the arguments after `argv[0]`; `ScanIsFirst` states that the first recognised directive wins and that none is found exactly when none is recognised |
| `Runner.ScanIsFirst` | minitest/minitest.cpp:261-310 | `run_test` acts on the first argument that starts a directive, and on none exactly when none does |
| `Runner.ListHeader` | minitest/minitest.cpp:285-286 | the header line of the list directive; `ListHeaderPlural` states its plural and its final '.' |
| `Runner.ListHeaderPlural` | minitest/minitest.cpp:285-286 | the header ends with '.', preceded by "s" exactly for more than one test case |
| `Runner.ListLine` | minitest/minitest.cpp:103 | one listed line `{0:{1}}:{2}({3})`; `ListingShape` states its padded index field, and `ListLineForm` and `ParseListLine` read it back |
| `Runner.Listing` | minitest/minitest.cpp:96-106 | the lines `list_registered_test_cases` prints; `ListingShape` states one line per test case in name order with a field as wide as the count's digits, and `Framework.ListRegisteredTestCases` prints exactly them |
| `Runner.ListingShape` | minitest/minitest.cpp:96-106 | one line per test case in name order, line `i` showing index `i` right-aligned in a field exactly as wide as the digits of the count |
| `Runner.MarkLine` | minitest/minitest.cpp:196 | the mark line `# guid`; `MarkNewline` states that with its newline it holds a newline only at the end, and `MarkAfterLine` that it never starts in a line without `guid` |
| `Runner.RemoveOldBlock` | minitest/minitest.cpp:199 | removing the old block never lengthens the text |
| `Runner.RemoveOldBlockSpan` | minitest/minitest.cpp:199 | with the first mark line at `p` and the last at `q` apart, everything from `p` through the end of the one at `q` is removed |
| `Runner.RemoveOldBlockKeeps` | minitest/minitest.cpp:199 | without two separate mark lines nothing is removed |
| `Runner.KeepLine` | minitest/minitest.cpp:201 | what `(.*guid.*\n)` leaves of one line: the line unless the part after its last carriage return holds `guid`; stated by `RemoveGuidLinesCons` and `DiscoverTests.RemoveGuidLinesStep` |
| `Runner.RemoveGuidLines` | minitest/minitest.cpp:201 | the `regex_replace` removing the `guid` lines over the whole text; stated by `RemoveGuidLinesShape`, `RemoveGuidLinesFixed` and `DiscoverTests.RemoveGuidLinesJoin` |
| `Runner.Backtrace` | minitest/minitest.cpp:219-225 | the location with its last ':' made ';' and backslashes made slashes; stated by `BacktraceOfLocation` and `TestCaseLocationBacktrace` |
| `Runner.BacktraceOfLocation` | minitest/minitest.cpp:219-225 | for `file:line` with no ':' in `line`, the backtrace is `file;line` with backslashes made slashes |
| `Runner.TestCaseLocation` | minitest/include/Atliac/minitest.h:174 | the location TEST_CASE passes, `__FILE__ ":" __LINE__`; `TestCaseLocationBacktrace` states that it always has a ':' and rewrites to `file;line` |
| `Runner.TestCaseLocationBacktrace` | minitest/minitest.cpp:219-225 | every TEST_CASE location has a ':' and gives `file;line` with the file's backslashes made slashes |
| `Runner.EntryLines` | minitest/minitest.cpp:216-228 | the `add_test` and `set_tests_properties` lines for one test case with its run-nth index; stated by `BlockLinesShape` and `DiscoverTests.SameLinesAsInProcess` |
| `Runner.BlockLines` | minitest/minitest.cpp:209-232 | the lines between the two mark lines, test case by test case; stated by `BlockLinesStep`, `BlockLinesShape` and `DiscoverTests.BlockLinesExe`, and built by `Framework.AppendTestCases` |
| `Runner.BlockLinesStep` | minitest/minitest.cpp:213-230 | one more test case appends its two lines to the block |
| `Runner.BlockLinesShape` | minitest/minitest.cpp:209-232 | the block holds exactly an `add_test` and a `set_tests_properties` line per test case, in name order, the k-th with run-nth index k |
| `Runner.DiscoverContent` | minitest/minitest.cpp:196-233 | the new content is missing exactly when some location has no ':' and the `assert` aborts |
| `Runner.DiscoverResult` | minitest/minitest.cpp:183-245 | FAILURE when the file cannot be opened for reading; an abort on a location without ':'; content written iff readable, all locations rewritable and writable, and then SUCCESS with the new content |
| `Runner.RemoveGuidLinesShape` | minitest/minitest.cpp:201 | on a text without carriage returns, removing the `guid` lines leaves whole lines none of which holds `guid`, then a last line without a newline |
| `Runner.RemoveGuidLinesCons` | minitest/minitest.cpp:201 | a whole first line without `guid` is kept as it is |
| `Runner.RemoveGuidLinesFixed` | minitest/minitest.cpp:201 | text already free of `guid` lines is left unchanged by a second removal |
| `Runner.RemoveOldBlockChars` | minitest/minitest.cpp:199 | removing the old block adds no character |
| `Runner.MarkNewline` | minitest/minitest.cpp:196 | the mark line followed by its newline holds a newline only at its end |
| `Runner.MarkAfterLine` | minitest/minitest.cpp:196-201 | a mark line cannot start inside a line that does not hold `guid` |
| `Runner.NoMarkBefore` | minitest/minitest.cpp:196-201 | no mark line starts within leading lines that do not hold `guid` |
| `Runner.CleanedHasNoMark` | minitest/minitest.cpp:196-201 | the text left after removing the `guid` lines holds no mark line |
| `Runner.BlockText` | minitest/minitest.cpp:209-232 | the written block starts and ends with the mark line and its newline |
| `Runner.FirstMarkOpensBlock` | minitest/minitest.cpp:196-232 | in the file discovery writes, no mark line starts before the one that opens the block |
| `Runner.WrittenBlockMarks` | minitest/minitest.cpp:196-232 | in the file discovery writes, the first mark line opens the block and the last one closes it |
| `Runner.DiscoverContentIdempotent` | minitest/minitest.cpp:196-233 | discovery run again on the content it wrote, for the same registry, writes the same content |
| `Runner.RunNthReply` | minitest/minitest.cpp:295-303 | both run-nth directives: the mode is set before `stoul`, then the n-th test case runs; stated by `DispatchMalformedIndex` and `DispatchRunsTest` |
| `Runner.Perform` | minitest/minitest.cpp:261-307 | the branch of `run_test` for the directive found; stated by `PerformFrame` and `DispatchWithoutTest`/`DispatchMissingTest`/`DispatchRunsTest`, and implemented by `Framework.PerformDirective` |
| `Runner.Dispatch` | minitest/minitest.cpp:251-311 | `run_test` from the process state; stated by the `Dispatch*` rows and implemented by `Framework.RunTest` |
| `Runner.DispatchWithoutTest` | minitest/minitest.cpp:251-311 | invalid arguments give FAILURE; no directive throws `minitest_do_nothing`; help and list give SUCCESS; none changes the state |
| `Runner.DispatchFrame` | minitest/minitest.cpp:251-311 | the registry never changes; silent mode is set exactly by the internal run-nth directive; the latch changes only when a test case runs |
| `Runner.PerformFrame` | minitest/minitest.cpp:261-307 | the same frame for each directive |
| `Runner.DispatchMissingTest` | minitest/minitest.cpp:291-303 | an unknown name or an index out of range gives FAILURE and leaves the latch alone |
| `Runner.DispatchMalformedIndex` | minitest/minitest.cpp:295-303 | a malformed index escapes with `stoul`'s exception in both modes, after the internal directive set silent mode |
| `Runner.DispatchRunsTest` | minitest/minitest.cpp:291-303 | a found test case runs from the current latch, and its verdict is `run_test_case`'s in the directive's mode |
| `Minitest.CountNumWidth` | minitest/minitest.cpp:85-94 | the loop counts the decimal digits: 0 for 0, else `w` with `10^(w-1) <= n < 10^w` |
| `Minitest.Framework.constructor` | minitest/minitest.cpp:28-29 | static initialisation: an empty registry and both flags false |
| `Minitest.Framework.SignalExpectationFailure` | minitest/minitest.cpp:249 | sets the latch and nothing else |
| `Minitest.Framework.CheckExpectationFailure` | minitest/minitest.cpp:31-38 | clears the latch and raises exactly when it was set; nothing else changes |
| `Minitest.Framework.AutoRegTestCase` | minitest/minitest.cpp:313-334 | exits with FAILURE exactly when registration is refused, leaving the registry; otherwise the registry becomes the registered one; the flags are unchanged |
| `Minitest.Framework.CallTestFunction` | minitest/minitest.cpp:119 | calling the test function has the body's effect on the latch |
| `Minitest.Framework.CallAndCheck` | minitest/minitest.cpp:75-77 | the call followed by the check after a normal return |
| `Minitest.Framework.RunRegisteredTestCase` | minitest/minitest.cpp:68-83 | implements `RunRegistered` on the state |
| `Minitest.Framework.PriImplRunNthTestCase` | minitest/minitest.cpp:108-121 | implements `RunNth` on the state |
| `Minitest.Framework.RunNthTestCase` | minitest/minitest.cpp:123-140 | implements `RunNth` on the state, as the internal variant does |
| `Minitest.Framework.ListRegisteredTestCases` | minitest/minitest.cpp:96-106 | the loop prints exactly the listing |
| `Minitest.Framework.DiscoverTestCase` | minitest/minitest.cpp:183-245 | returns and writes exactly what `DiscoverResult` says |
| `Minitest.Framework.AppendTestCases` | minitest/minitest.cpp:209-232 | the loop stops exactly when some location has no ':', and otherwise builds the text of the block lines |
| `Minitest.Framework.RunTest` | minitest/minitest.cpp:251-311 | the argv loop ends as `Dispatch` says: result, listing, written file and new state |
| `Minitest.Framework.PerformDirective` | minitest/minitest.cpp:261-307 | each directive's branch does what `Perform` says |
| `DiscoverTests.Pieces` | minitest/minitest_discover_tests/main.cpp:117 | `split('\n')` gives at least one piece, none holding a newline |
| `DiscoverTests.PiecesUnsplit` | minitest/minitest_discover_tests/main.cpp:117 | the pieces joined by newlines are the output again |
| `DiscoverTests.SplitLines` | minitest/minitest_discover_tests/main.cpp:117-118 | no piece for empty output; otherwise the pieces reassemble the output and hold no newline |
| `DiscoverTests.SplitPrintedLines` | minitest/minitest_discover_tests/main.cpp:117-118 | output printed line by line splits into those lines and a last empty piece |
| `DiscoverTests.DropUntil` | minitest/minitest_discover_tests/main.cpp:119 | `drop_while(line != guid)`: a suffix starting at a `guid` line, with no `guid` line dropped |
| `DiscoverTests.TakeUntil` | minitest/minitest_discover_tests/main.cpp:119 | `take_while(line != guid)`: a prefix without `guid`, followed by `guid` if anything |
| `DiscoverTests.NonEmpty` | minitest/minitest_discover_tests/main.cpp:120 | the filter keeps exactly the non-empty lines |
| `DiscoverTests.NonEmptyAppend` | minitest/minitest_discover_tests/main.cpp:120 | the filter distributes over concatenation |
| `DiscoverTests.SelectLines` | minitest/minitest_discover_tests/main.cpp:116-120 | the non-empty lines between the first two `guid` lines of the output; stated by `SelectNothing`, `SelectBetween` and `SelectListing` |
| `DiscoverTests.SelectNothing` | minitest/minitest_discover_tests/main.cpp:116-120 | without a `guid` line nothing is parsed |
| `DiscoverTests.SelectBetween` | minitest/minitest_discover_tests/main.cpp:116-120 | the selected lines are the non-empty lines strictly between the first `guid` line and the next one (or the end) |
| `DiscoverTests.LeadingDigits` | minitest/minitest_discover_tests/main.cpp:114 | `[0-9]+` greedily takes the whole run of digits |
| `DiscoverTests.UpToBreak` | minitest/minitest_discover_tests/main.cpp:114 | `.` reaches up to the first carriage return or newline |
| `DiscoverTests.Groups` | minitest/minitest_discover_tests/main.cpp:114 | groups 2 to 4: carries the index through and gives three non-empty groups |
| `DiscoverTests.GroupsClosedAt` | minitest/minitest_discover_tests/main.cpp:114 | the same, once the closing ')' is chosen |
| `DiscoverTests.GroupsSplitAt` | minitest/minitest_discover_tests/main.cpp:114 | the same, once the ':' before the line is chosen |
| `DiscoverTests.GroupsMatched` | minitest/minitest_discover_tests/main.cpp:114 | the groups put back as `index:name(file:line)` are a prefix of the text matched |
| `DiscoverTests.SplitMatched` | minitest/minitest_discover_tests/main.cpp:114 | the same for the last choice |
| `DiscoverTests.Reassemble` | minitest/minitest_discover_tests/main.cpp:114 | cutting at '(', ':' and ')' and putting the pieces back gives the text again |
| `DiscoverTests.MatchAt` | minitest/minitest_discover_tests/main.cpp:114 | a match at a position has a non-empty all-digit index and three non-empty groups |
| `DiscoverTests.MatchAtMatched` | minitest/minitest_discover_tests/main.cpp:126-129 | the four groups of a match, put back, are a prefix of the text from that position |
| `DiscoverTests.ParseLine` | minitest/minitest_discover_tests/main.cpp:114-129 | `regex_search` of `([0-9]+):(.+)\((.+):(.+)\)` and its four groups; stated by `ParseLineNone`, `ParseLineLeftmost` and `ParseListLine` |
| `DiscoverTests.ParseLineNone` | minitest/minitest_discover_tests/main.cpp:122 | `regex_search` fails exactly when no position starts a match |
| `DiscoverTests.ParseLineLeftmost` | minitest/minitest_discover_tests/main.cpp:122 | what `regex_search` finds is the match at the leftmost position that has one |
| `DiscoverTests.SearchFindsAt` | minitest/minitest_discover_tests/main.cpp:122 | with no match before `p` and one at `p`, the search returns that one |
| `DiscoverTests.GroupsAt` | minitest/minitest_discover_tests/main.cpp:114 | with the last ')', the last ':' at least two places before it and the last '(' at least two places before that, the groups are the three slices between them |
| `DiscoverTests.GroupsOf` | minitest/minitest_discover_tests/main.cpp:114 | greedy matching splits `name(file:line)` back into its parts when `file` has no '(' and `line` no ':' |
| `DiscoverTests.MatchAtOf` | minitest/minitest_discover_tests/main.cpp:114 | a text of digits, ':' and a rest without line break is matched at its start with those digits as index |
| `DiscoverTests.ParseAfterSpaces` | minitest/minitest_discover_tests/main.cpp:122 | leading spaces are skipped: the search finds the match after them |
| `DiscoverTests.ListLineForm` | minitest/minitest.cpp:103 | a listed line is padding, the index, ':' and `name(file:line)` |
| `DiscoverTests.ParseListLine` | minitest/minitest_discover_tests/main.cpp:122-129 | every printed listing line parses back into its own index, name, file and line, whatever the padding |
| `DiscoverTests.TestLines` | minitest/minitest_discover_tests/main.cpp:126-141 | the two lines the tool writes for one parsed line; `SameLinesAsInProcess` states that they are the in-process `EntryLines` |
| `DiscoverTests.SameLinesAsInProcess` | minitest/minitest_discover_tests/main.cpp:131-141 | for a location `file:line` the tool writes the very lines `discover_test_case` writes for the same executable string, and the lines agree with those for another executable string exactly when the two strings are equal |
| `DiscoverTests.AddTestLineExe` | minitest/minitest_discover_tests/main.cpp:133-135 | two `add_test` lines for the same test case agree exactly when they name the same executable string |
| `DiscoverTests.EmitParsed` | minitest/minitest_discover_tests/main.cpp:122-143 | stops at the first line that did not parse with all before it parsed; without a stop, two lines per parsed line |
| `DiscoverTests.EmitParsedSnoc` | minitest/minitest_discover_tests/main.cpp:133-141 | one more parsed line appends its two lines |
| `DiscoverTests.EmitParsedStop` | minitest/minitest_discover_tests/main.cpp:122-125 | the first failing line ends the loop with the lines written before it |
| `DiscoverTests.EmitLines` | minitest/minitest_discover_tests/main.cpp:116-143 | the failing line is a selected line that does not parse; none fails iff all parse, and then two lines per line |
| `DiscoverTests.Placeholder` | minitest/minitest_discover_tests/main.cpp:147-148 | the `_NO_TEST_CASE` line; `TestsFile` states that it is written exactly when nothing was selected |
| `DiscoverTests.TestsFile` | minitest/minitest_discover_tests/main.cpp:116-150 | the placeholder exactly when nothing was selected; otherwise the emitted lines |
| `DiscoverTests.WriteTests` | minitest/minitest_discover_tests/main.cpp:109-150 | the loop with its `found_test_case` flag writes exactly `TestsFile` |
| `DiscoverTests.WriteParsed` | minitest/minitest_discover_tests/main.cpp:116-143 | the loop body writes `EmitParsed`; the flag is set iff some test case was written |
| `DiscoverTests.FindFromContains` | minitest/minitest_discover_tests/main.cpp:72 | `find(guid) == npos` iff the line does not contain `guid` |
| `DiscoverTests.KeptLines` | minitest/minitest_discover_tests/main.cpp:70-78 | the copied lines are exactly those without `guid` |
| `DiscoverTests.KeptLinesCons` | minitest/minitest_discover_tests/main.cpp:70-78 | the first line is copied unless it holds `guid` |
| `DiscoverTests.RemoveGuidLinesJoin` | minitest/minitest.cpp:201 | on whole lines without carriage returns, the in-process removal of `guid` lines drops exactly the lines the tool drops |
| `DiscoverTests.RemoveGuidLinesStep` | minitest/minitest.cpp:201 | the first whole line is removed iff it holds `guid` |
| `DiscoverTests.IncludeLine` | minitest/minitest_discover_tests/main.cpp:83 | the `include` line of the generated file; `ContainsIn` and `UpdatedConfigLines` state its role |
| `DiscoverTests.UpdatedConfig` | minitest/minitest_discover_tests/main.cpp:59-93 | the new configuration file; stated by `UpdatedConfigLines` and `UpdateConfigIdempotent`, and written by `UpdateConfigFile` |
| `DiscoverTests.UpdatedConfigLines` | minitest/minitest_discover_tests/main.cpp:59-93 | the new configuration file reads back as the lines without `guid`, then the `include` line exactly when some line held `guid` |
| `DiscoverTests.KeptAll` | minitest/minitest_discover_tests/main.cpp:70-78 | lines without `guid` are all kept |
| `DiscoverTests.UpdateConfigIdempotent` | minitest/minitest_discover_tests/main.cpp:59-93 | once the included path holds `guid`, a second update changes nothing |
| `DiscoverTests.ContainsIn` | minitest/minitest_discover_tests/main.cpp:83 | the `include` line of a path holding `guid` holds `guid` |
| `DiscoverTests.KeptStep` | minitest/minitest_discover_tests/main.cpp:70-78 | one more line is kept unless it holds `guid`, and then it counts as found |
| `DiscoverTests.UpdateConfigFile` | minitest/minitest_discover_tests/main.cpp:59-93 | the `getline` loop with `found_guid` writes exactly `UpdatedConfig` |
| `DiscoverTests.TestsPath` | minitest/minitest_discover_tests/main.cpp:104 | the name `{stem}_ctest_tests_{guid}.cmake` in the target's directory; stated by `TestsPathHoldsGuid` and `TestsPathNoBreak` |
| `DiscoverTests.TestsPathHoldsGuid` | minitest/minitest_discover_tests/main.cpp:104 | the generated file's path holds `guid` |
| `DiscoverTests.TestsPathNoBreak` | minitest/minitest_discover_tests/main.cpp:104 | the generated file's path is one line |
| `DiscoverTests.ToolMain` | minitest/minitest_discover_tests/main.cpp:96-168 | the asserts reject exactly a wrong argument count or guid; otherwise exit code 0 always; the configuration is rewritten iff no exception was caught, and only after the listing was read and the tests file written |
| `DiscoverTests.RunTool` | minitest/minitest_discover_tests/main.cpp:96-168 | `main` with its two loops does what `ToolMain` says |
| `DiscoverTests.ToolMainConfig` | minitest/minitest_discover_tests/main.cpp:152-157 | where `main` rewrites the configuration, every file was available and it writes the update of what it read |
| `DiscoverTests.ToolMainReplaced` | minitest/minitest_discover_tests/main.cpp:157 | reaching the configuration update depends on the configuration file only through its presence |
| `DiscoverTests.RerunKeepsConfig` | minitest/minitest_discover_tests/main.cpp:59-93 | rerunning the tool on the configuration it wrote leaves that file unchanged |
| `DiscoverTests.ListLinePlain` | minitest/minitest.cpp:103 | a listed line is one non-empty line holding a ':' |
| `DiscoverTests.ListingParses` | minitest/minitest_discover_tests/main.cpp:122-129 | the k-th listed line parses into index k and the k-th test case's name, file and line |
| `DiscoverTests.EmitPrefix` | minitest/minitest_discover_tests/main.cpp:122-143 | line-by-line agreement of parsed lines with the block gives agreement of the first n of them with the first 2n block lines |
| `DiscoverTests.ListedTestLines` | minitest/minitest_discover_tests/main.cpp:126-141 | for the k-th listed line the tool writes the lines `discover_test_case` writes for the k-th test case |
| `DiscoverTests.EmitListing` | minitest/minitest_discover_tests/main.cpp:116-143 | parsing the whole listing writes exactly the in-process block, with no failure |
| `DiscoverTests.SelectListing` | minitest/minitest_discover_tests/main.cpp:111-120 | the listing printed between two `guid` lines is exactly what gets selected |
| `DiscoverTests.NonEmptyAll` | minitest/minitest_discover_tests/main.cpp:120 | the filter keeps every line when none is empty |
| `DiscoverTests.SplitListing` | minitest/minitest_discover_tests/main.cpp:116-118 | the printed output splits back into the printed lines |
| `DiscoverTests.DiscoveryPathsAgree` | minitest/minitest_discover_tests/main.cpp:111-150 | the tool given `target` writes for a printed listing exactly the lines minitest.cpp's `discover_test_case` writes between its mark lines for the same registry and the same executable string, or the placeholder for an empty registry; for a non-empty registry the blocks agree with those for `exePath` exactly when `target == exePath` |
| `DiscoverTests.BlockLinesExe` | minitest/minitest.cpp:209-232 | for a non-empty registry, the blocks written for two executable strings agree exactly when the strings are equal |

## Left out

- Console output is not modelled: messages, the help text, the "passed, time elapsed"
  lines, `elapsed_time_str`, and `print_message`/INFO. Only the listing lines and the files
  written are modelled, because other programs read them.
- `get_type_name` and demangling: they only feed messages.
- Windows: `win32_run_test`, `win32_allocate_console`, `MINITEST_WIN32_RUN_TESTS`, the
  export macros and the `_popen` spelling. They are platform glue.
- `MINITEST_CONFIG_DISABLE` and the short macro names: they change only which text the
  preprocessor produces.
- Test bodies are `Step` sequences. The model does not cover arbitrary C++ code in a body. A
  body that exits the process or loops forever is not modelled.
- The registry keeps names as `string_view`s of the caller's strings. Their lifetime is
  not modelled.
- `std::regex` in general:
  - Only the three patterns the code builds are modelled, each as a string function.
  - `guid` is literal text. A guid holding regex metacharacters would change the
    patterns, and that is not modelled.
  - `RemoveOldBlock` models `(marker)[\s\S]*\1` where the first occurrence and the last
    do not overlap.
  - `KeepLine` models `.` of `(.*guid.*\n)` as stopping at a carriage return.
- `std::stoul`:
  - Leading white space and a sign are not modelled.
  - The range check uses a 64-bit `unsigned long` (LP64). On a 32-bit `unsigned long`
    the limit would be 2^32-1.
- The process environment becomes parameters:
  - `popen` of the target with the listing flag, and reading its output, become
    `ToolHost.output`; reading failures and a non-zero exit become `None`.
  - Whether the files can be opened becomes flags and optional contents.
  - `filesystem::absolute`, `stem`, `filename` and `parent_path` become the fields
    `directory`, `stem` and `filename`. The included path is written
    `directory + "/" + name`, the absolute name of the file in the target's directory.
  - The search for `CTestTestfile.cmake` in the current directory and its parents becomes
    `ToolHost.config`: `None` when it is found nowhere or cannot be read.
- The hidden directive `flag_pri_impl_list_test_cases` and the `guid` constant are not
  part of the header modelled here. `run_test` in minitest/minitest.cpp:261-310 has no
  branch for that directive, so a target built from that file treats it as an unknown
  argument and throws `minitest_do_nothing`. `DiscoveryPathsAgree` is therefore about a
  target that does print its listing between two `guid` lines; what it prints around
  the listing is the parameters `before` and `after`.
- `assert` is taken to be enabled (no `NDEBUG`). A failed `assert` is `Aborted` in
  minitest.cpp and `ArgumentsRejected` in the tool.
- `test_case_index` and the result of `count_num_width` are `int` in minitest/minitest.cpp
  (lines 87, 99 and 212); the model uses unbounded `nat` indices and widths. The two
  differ only for more than 2^31-1 test cases.
- Concurrency, the order of static initialisation beyond
  `RegistrationOrderIrrelevant`, and output buffering are not modelled.
- `RemoveOldBlock`: its own contract states only that the text does not grow. What it
  removes is stated by `RemoveOldBlockSpan` and `RemoveOldBlockKeeps`.
- `Registry.RegisterAll`: its own contract states only that the registry stays sorted.
  Success and contents are stated by `RegisterAllSucceeds` and `RegisterAllContents`.
