/** The public header `minitest.h`: exit codes, directive flags, the framework's
    exception types and the meaning of the ASSERT_ / EXPECT_ / FAIL / SUCCEED checks.

    A test function is modelled as a sequence of `Step`s. Running it threads the
    process-wide expectation latch through the steps and stops at the first step
    that raises; `Exec` is that interpreter. Messages printed by the checks are
    console output and are not part of the model. */
module MinitestH {

  // ---------------------------------------------------------------------------
  // Exit codes and directive strings

  const MinitestSuccess: int := 0
  const MinitestFailure: int := 1

  const FlagHelp: string := "--minitest-help"
  const FlagPriImplRunNthTestCase: string := "--minitest-pri-impl-run-nth-test-case"
  const FlagPriImplDiscoverTestCases: string := "--minitest-pri-impl-discover-test-cases"
  const FlagListTestCases: string := "--minitest-list-test-cases"
  const FlagRunTestCase: string := "--minitest-run-test-case"
  const FlagRunNthTestCase: string := "--minitest-run-nth-test-case"

  /** The two exit codes differ, and every directive string is distinct from the others. */
  lemma ConstantsDistinct()
    ensures MinitestSuccess == 0 && MinitestFailure == 1
    ensures MinitestSuccess != MinitestFailure
    ensures var flags := [FlagHelp, FlagPriImplRunNthTestCase, FlagPriImplDiscoverTestCases,
                          FlagListTestCases, FlagRunTestCase, FlagRunNthTestCase];
            forall i, j :: 0 <= i < j < |flags| ==> flags[i] != flags[j]
  {
  }

  // ---------------------------------------------------------------------------
  // Exceptions

  const StdExceptionType: string := "std::exception"
  const AssertionFailureType: string := "minitest::minitest_assertion_failure"

  const DoNothingType: string := "minitest::pri_impl::minitest_do_nothing"

  /** A thrown C++ exception. `classes` lists the thrown type and its public bases;
      `StdExc` is a type derived from `std::exception` (which is not repeated in
      `classes`), `Unknown` one that is not. `AssertionFailure` is an object of
      `minitest_assertion_failure` itself, which derives from `std::exception`; a user
      class derived from it is a `StdExc` whose `classes` name it. `minitest_do_nothing`
      has no base: `Unknown([DoNothingType])`. Some values stand for no C++ exception,
      such as an `Unknown` whose `classes` name `AssertionFailureType` (that class is a
      `std::exception`), and `StdExc([AssertionFailureType])` encodes the same class as
      `AssertionFailure`; every lemma here holds for all values, these included. */
  datatype Exc =
    | AssertionFailure
    | StdExc(classes: seq<string>)
    | Unknown(classes: seq<string>)

  /** Whether a handler `catch (const t &)` selects the exception `e`. */
  predicate Catches(t: string, e: Exc)
  {
    match e
    case AssertionFailure => t == AssertionFailureType || t == StdExceptionType
    case StdExc(cs) => t == StdExceptionType || t in cs
    case Unknown(cs) => t != StdExceptionType && t in cs
  }

  /** Whether `catch (const minitest::minitest_assertion_failure &)` selects `e`: the
      framework's failure itself or any class derived from it. */
  predicate IsAssertionFailure(e: Exc)
  {
    Catches(AssertionFailureType, e)
  }

  /** How a piece of code finished: returned normally or raised an exception. */
  datatype Outcome = Normal | Raised(exc: Exc)

  /** What running some code did: how it finished, and the expectation latch afterwards. */
  datatype Effect = Effect(outcome: Outcome, latch: bool)

  // ---------------------------------------------------------------------------
  // Test bodies

  /** One statement of a test function. The operand `expr` of the THROW checks is
      itself code, so it can contain checks of its own. */
  datatype Step =
    | AssertTrue(cond: bool)
    | AssertFalse(cond: bool)
    | Succeed
    | Fail
    | AssertThrow(expr: seq<Step>, expected: string)
    | AssertNoThrow(expr: seq<Step>)
    | ExpectTrue(cond: bool)
    | ExpectFalse(cond: bool)
    | ExpectThrow(expr: seq<Step>, expected: string)
    | ExpectNoThrow(expr: seq<Step>)
    | Throw(exc: Exc)

  type Body = seq<Step>

  /** Runs `body` from left to right starting with the latch `latch`; the first
      step that raises ends the run. */
  function Exec(body: Body, latch: bool): Effect
    decreases body
  {
    if body == [] then Effect(Normal, latch)
    else
      var x := StepExec(body[0], latch);
      if x.outcome.Raised? then x else Exec(body[1..], x.latch)
  }

  /** The effect of one check macro, given the latch before it. */
  function StepExec(s: Step, latch: bool): Effect
    decreases s
  {
    match s
    case AssertTrue(c) =>
      if c then Effect(Normal, latch) else Effect(Raised(AssertionFailure), latch)
    case AssertFalse(c) =>
      if !c then Effect(Normal, latch) else Effect(Raised(AssertionFailure), latch)
    case Succeed => Effect(Normal, latch)
    case Fail => Effect(Raised(AssertionFailure), latch)
    case AssertThrow(expr, t) =>
      var x := Exec(expr, latch);
      // The first handler selects every assertion failure, derived classes included,
      // and rethrows the very object; this also covers the failure thrown after a
      // normal completion of `expr`.
      if x.outcome.Raised? && IsAssertionFailure(x.outcome.exc) then x
      else if x.outcome.Raised? && Catches(t, x.outcome.exc) then Effect(Normal, x.latch)
      else Effect(Raised(AssertionFailure), x.latch)
    case AssertNoThrow(expr) =>
      var x := Exec(expr, latch);
      if x.outcome.Normal? then x else Effect(Raised(AssertionFailure), x.latch)
    case ExpectTrue(c) => Effect(Normal, latch || !c)
    case ExpectFalse(c) => Effect(Normal, latch || c)
    case ExpectThrow(expr, t) =>
      var x := Exec(expr, latch);
      if x.outcome.Raised? && Catches(t, x.outcome.exc)
      then Effect(Normal, x.latch)
      else Effect(Normal, true)
    case ExpectNoThrow(expr) =>
      var x := Exec(expr, latch);
      Effect(Normal, x.latch || x.outcome.Raised?)
    case Throw(e) => Effect(Raised(e), latch)
  }

  // ---------------------------------------------------------------------------
  // Properties of the checks

  /** Running `a + b` runs `a` and then, only if `a` returned normally, `b` with the latch `a` left. */
  lemma {:induction false} ExecAppend(a: Body, b: Body, latch: bool)
    ensures Exec(a + b, latch) ==
      (var x := Exec(a, latch); if x.outcome.Raised? then x else Exec(b, x.latch))
  {
    if a == [] {
      assert a + b == b;
    } else {
      assert (a + b)[0] == a[0];
      assert (a + b)[1..] == a[1..] + b;
      var x := StepExec(a[0], latch);
      if x.outcome.Normal? {
        ExecAppend(a[1..], b, x.latch);
      }
    }
  }

  /** No check ever clears the latch: once set during a test body it stays set. */
  lemma {:induction false} ExecKeepsLatch(body: Body, latch: bool)
    ensures latch ==> Exec(body, latch).latch
    decreases body
  {
    if body != [] {
      StepKeepsLatch(body[0], latch);
      var x := StepExec(body[0], latch);
      if x.outcome.Normal? {
        ExecKeepsLatch(body[1..], x.latch);
      }
    }
  }

  lemma {:induction false} StepKeepsLatch(s: Step, latch: bool)
    ensures latch ==> StepExec(s, latch).latch
    decreases s
  {
    match s
    case AssertThrow(expr, t) => ExecKeepsLatch(expr, latch);
    case AssertNoThrow(expr) => ExecKeepsLatch(expr, latch);
    case ExpectThrow(expr, t) => ExecKeepsLatch(expr, latch);
    case ExpectNoThrow(expr) => ExecKeepsLatch(expr, latch);
    case _ =>
  }

  /** ASSERT_TRUE(c): no effect when `c` holds; otherwise it raises the assertion
      failure and the rest of the body is skipped. ASSERT_FALSE is the mirror image. */
  lemma AssertTrueFalseSemantics(c: bool, rest: Body, latch: bool)
    ensures Exec([AssertTrue(c)] + rest, latch) ==
      if c then Exec(rest, latch) else Effect(Raised(AssertionFailure), latch)
    ensures Exec([AssertFalse(c)] + rest, latch) ==
      if !c then Exec(rest, latch) else Effect(Raised(AssertionFailure), latch)
  {
    ExecAppend([AssertTrue(c)], rest, latch);
    ExecAppend([AssertFalse(c)], rest, latch);
  }

  /** FAIL() always raises the assertion failure; SUCCEED() never raises and leaves the latch alone. */
  lemma FailSucceedSemantics(rest: Body, latch: bool)
    ensures Exec([Fail] + rest, latch) == Effect(Raised(AssertionFailure), latch)
    ensures Exec([Succeed] + rest, latch) == Exec(rest, latch)
  {
    ExecAppend([Fail], rest, latch);
    ExecAppend([Succeed], rest, latch);
  }

  /** EXPECT_TRUE / EXPECT_FALSE never raise: execution continues with the latch
      set exactly when the check failed, and unchanged when it passed. */
  lemma ExpectTrueFalseSemantics(c: bool, rest: Body, latch: bool)
    ensures Exec([ExpectTrue(c)] + rest, latch) == Exec(rest, if c then latch else true)
    ensures Exec([ExpectFalse(c)] + rest, latch) == Exec(rest, if !c then latch else true)
  {
    ExecAppend([ExpectTrue(c)], rest, latch);
    ExecAppend([ExpectFalse(c)], rest, latch);
  }

  /** ASSERT_THROW(expr, t) passes exactly when `expr` raises something that is not an
      assertion failure and that `catch (const t &)` selects. An assertion failure raised
      inside `expr`, of a derived class too, comes out unchanged whatever `t` is; in every
      other case, including normal completion and a non-matching exception, it raises the
      assertion failure. */
  lemma AssertThrowSemantics(expr: Body, t: string, latch: bool)
    ensures var x := Exec(expr, latch);
            var r := StepExec(AssertThrow(expr, t), latch);
            && r.latch == x.latch
            && (r.outcome.Normal? <==>
                  x.outcome.Raised? && !IsAssertionFailure(x.outcome.exc) && Catches(t, x.outcome.exc))
            && (x.outcome.Raised? && IsAssertionFailure(x.outcome.exc) ==> r.outcome == x.outcome)
            && (r.outcome.Raised? && !(x.outcome.Raised? && IsAssertionFailure(x.outcome.exc)) ==>
                  r.outcome.exc == AssertionFailure)
            && (r.outcome.Raised? ==> IsAssertionFailure(r.outcome.exc))
  {
  }

  /** A class derived from `minitest_assertion_failure`: ASSERT_THROW rethrows it even
      when it is the expected type, while EXPECT_THROW, lacking that handler, passes. */
  lemma DerivedAssertionFailure(latch: bool)
    ensures var d := StdExc(["D", AssertionFailureType]);
            && IsAssertionFailure(d)
            && StepExec(AssertThrow([Throw(d)], "D"), latch) == Effect(Raised(d), latch)
            && StepExec(ExpectThrow([Throw(d)], "D"), latch) == Effect(Normal, latch)
  {
    var d := StdExc(["D", AssertionFailureType]);
    assert Exec([Throw(d)], latch) == Effect(Raised(d), latch);
  }

  /** ASSERT_NO_THROW(expr) passes only when `expr` completes normally; any exception,
      derived from `std::exception` or not, becomes the assertion failure. */
  lemma AssertNoThrowSemantics(expr: Body, latch: bool)
    ensures var x := Exec(expr, latch);
            var r := StepExec(AssertNoThrow(expr), latch);
            && r.latch == x.latch
            && (r.outcome.Normal? <==> x.outcome.Normal?)
            && (r.outcome.Raised? ==> r.outcome.exc == AssertionFailure)
  {
  }

  /** EXPECT_NO_THROW classifies like ASSERT_NO_THROW but sets the latch instead of raising. */
  lemma ExpectNoThrowMirrorsAssert(expr: Body, latch: bool)
    ensures var a := StepExec(AssertNoThrow(expr), latch);
            StepExec(ExpectNoThrow(expr), latch) == Effect(Normal, a.latch || a.outcome.Raised?)
  {
  }

  /** EXPECT_THROW classifies like ASSERT_THROW and sets the latch instead of raising,
      except for an assertion failure (of any class derived from it too) raised inside
      `expr`: it has no rethrow clause, so such a failure is swallowed, and passes when
      `catch (const t &)` selects it. */
  lemma ExpectThrowMirrorsAssert(expr: Body, t: string, latch: bool)
    ensures var x := Exec(expr, latch);
            var a := StepExec(AssertThrow(expr, t), latch);
            var e := StepExec(ExpectThrow(expr, t), latch);
            && e.outcome == Normal
            && (!(x.outcome.Raised? && IsAssertionFailure(x.outcome.exc)) ==>
                  e.latch == (a.latch || a.outcome.Raised?))
            && (x.outcome.Raised? && IsAssertionFailure(x.outcome.exc) ==>
                  a == x && e.latch == (if Catches(t, x.outcome.exc) then x.latch else true))
  {
  }

  /** A check that cannot fail. */
  predicate Passes(s: Step)
  {
    || s == AssertTrue(true) || s == AssertFalse(false) || s == Succeed
    || s == ExpectTrue(true) || s == ExpectFalse(false)
  }

  /** A body made only of passing checks returns normally and leaves the latch as it found it. */
  lemma {:induction false} PassingBodyIsNeutral(body: Body, latch: bool)
    requires forall i :: 0 <= i < |body| ==> Passes(body[i])
    ensures Exec(body, latch) == Effect(Normal, latch)
  {
    if body != [] {
      PassingBodyIsNeutral(body[1..], latch);
    }
  }

  // ---------------------------------------------------------------------------
  // run_test and MINITEST_RUN_TESTS

  /** How `run_test` ends: it returns an exit code, raises `minitest_do_nothing`
      (no directive for the framework), lets another exception escape, or aborts
      the process through a failed `assert`. */
  datatype RunResult =
    | Handled(code: int)
    | DoNothing
    | Propagated(exc: Exc)
    | Aborted

  /** What MINITEST_RUN_TESTS makes the enclosing host function do. */
  datatype HostControl =
    | Return(code: int)
    | FallThrough
    | Unwind(exc: Exc)
    | Abort

  /** MINITEST_RUN_TESTS returns `run_test`'s code from the enclosing function, swallows
      `minitest_do_nothing` so the host's own code runs on, and lets every other
      exception continue unwinding. Its handler selects a `minitest_do_nothing` (or a
      class derived from it) that a test body threw and `run_test` let through, too. */
  function RunTestsMacro(r: RunResult): (h: HostControl)
    ensures h.FallThrough? <==> r.DoNothing? || (r.Propagated? && Catches(DoNothingType, r.exc))
    ensures r.Handled? <==> h.Return?
    ensures r.Handled? ==> h.code == r.code
    ensures h.Unwind? <==> r.Propagated? && !Catches(DoNothingType, r.exc)
    ensures h.Unwind? ==> h.exc == r.exc
    ensures h.Abort? <==> r.Aborted?
  {
    match r
    case Handled(code) => Return(code)
    case DoNothing => FallThrough
    case Propagated(e) => if Catches(DoNothingType, e) then FallThrough else Unwind(e)
    case Aborted => Abort
  }
}
