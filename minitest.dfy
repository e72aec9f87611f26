/** The imperative code of minitest.cpp: the process-wide registry and the two flags,
    the run helpers, the listing and discovery loops, and `run_test`'s scan of argv.
    Each method is proved to leave the state and return what the functions of the
    `Runner` module say. */
module Minitest {
  import opened Common
  import opened MinitestH
  import opened Registry
  import opened CTestText
  import opened Runner

  /** `count_num_width(num)`: how many times `num` can be divided by ten before it is zero. */
  method CountNumWidth(num: nat) returns (w: nat)
    ensures w == Digits(num)
    ensures num == 0 ==> w == 0
    ensures num > 0 ==> Pow10(w - 1) <= num < Pow10(w)
  {
    var n := num;
    w := 0;
    while n != 0
      invariant w + Digits(n) == Digits(num)
      decreases n
    {
      n := n / 10;
      w := w + 1;
    }
    if num > 0 {
      DigitsBounds(num);
    }
  }

  /** What `auto_reg_test_case` does: register, or end the process with an exit code. */
  datatype RegResult = Registered | Exit(code: int)

  /** The process-wide state of minitest.cpp: the registry of test cases (a `std::map`
      kept here as its entries in name order), `expectation_failed` and `silent_mode`. */
  class Framework {
    var entries: seq<Entry>
    var expectationFailed: bool
    var silentMode: bool

    /** The registry is in strictly ascending name order and holds no empty name. */
    ghost predicate Valid()
      reads this
    {
      Sorted(entries) && forall i :: 0 <= i < |entries| ==> entries[i].name != []
    }

    function State(): Process
      reads this
    {
      Process(entries, expectationFailed, silentMode)
    }

    /** Static initialisation: an empty registry and both flags false. */
    constructor()
      ensures Valid()
      ensures State() == Process([], false, false)
    {
      entries := [];
      expectationFailed := false;
      silentMode := false;
    }

    /** `silent_mode()`. */
    function SilentMode(): bool
      reads this
    {
      silentMode
    }

    /** `signal_expectation_failure`: sets the latch and nothing else. The EXPECT_ checks
        of a test body reach the latch through `Exec` in `CallTestFunction` instead. */
    method SignalExpectationFailure()
      modifies this
      ensures State() == old(State()).(latch := true)
    {
      expectationFailed := true;
    }

    /** `check_expectation_failure`: clears the latch, and raises the assertion failure
        when it was set. */
    method CheckExpectationFailure() returns (o: Outcome)
      modifies this
      ensures Effect(o, expectationFailed) == CheckExpectation(old(expectationFailed))
      ensures entries == old(entries) && silentMode == old(silentMode)
    {
      if expectationFailed {
        expectationFailed := false;
        o := Raised(AssertionFailure);
      } else {
        o := Normal;
      }
    }

    /** `auto_reg_test_case(name, func, location)`. */
    method AutoRegTestCase(name: Option<string>, body: Body, location: string) returns (r: RegResult)
      requires Valid()
      modifies this
      ensures Valid()
      ensures r.Exit? <==> Register(old(entries), Registration(name, body, location)).None?
      ensures r.Exit? ==> r.code == MinitestFailure && entries == old(entries)
      ensures r.Registered? ==> Some(entries) == Register(old(entries), Registration(name, body, location))
      ensures expectationFailed == old(expectationFailed) && silentMode == old(silentMode)
    {
      if name.None? || name.value == [] {
        return Exit(MinitestFailure);
      }
      if Find(entries, name.value).Some? {
        return Exit(MinitestFailure);
      }
      var g := Registration(name, body, location);
      var es := Register(entries, g).value;
      assert forall x :: x in es ==> x in entries || x == EntryOf(g);
      forall i | 0 <= i < |es| ensures es[i].name != [] {
        assert es[i] in es;
        if es[i] != EntryOf(g) {
          var j :| 0 <= j < |entries| && entries[j] == es[i];
        }
      }
      entries := es;
      r := Registered;
    }

    /** Calls the test function `body`, which threads the latch through its checks. */
    method CallTestFunction(body: Body) returns (o: Outcome)
      modifies this
      ensures Effect(o, expectationFailed) == Exec(body, old(expectationFailed))
      ensures entries == old(entries) && silentMode == old(silentMode)
    {
      var x := Exec(body, expectationFailed);
      expectationFailed := x.latch;
      o := x.outcome;
    }

    /** Calls the test function, then checks the latch if it returned normally. */
    method CallAndCheck(body: Body) returns (o: Outcome)
      modifies this
      ensures Effect(o, expectationFailed) == Invoke(body, old(expectationFailed))
      ensures entries == old(entries) && silentMode == old(silentMode)
    {
      o := CallTestFunction(body);
      if o.Normal? {
        o := CheckExpectationFailure();
      }
    }

    /** `run_registered_test_case(name)`. */
    method RunRegisteredTestCase(name: string) returns (o: Outcome)
      modifies this
      ensures Effect(o, expectationFailed) == RunRegistered(old(entries), name, old(expectationFailed))
      ensures entries == old(entries) && silentMode == old(silentMode)
    {
      var found := Find(entries, name);
      if found.Some? {
        o := CallAndCheck(found.value.body);
        return;
      }
      o := Raised(AssertionFailure);
    }

    /** `pri_impl_run_nth_test_case(n)`. */
    method PriImplRunNthTestCase(n: nat) returns (o: Outcome)
      modifies this
      ensures Effect(o, expectationFailed) == RunNth(old(entries), n, old(expectationFailed))
      ensures entries == old(entries) && silentMode == old(silentMode)
    {
      if n >= |entries| {
        return Raised(AssertionFailure);
      }
      o := CallAndCheck(entries[n].body);
    }

    /** `run_nth_test_case(n)`: as `pri_impl_run_nth_test_case`, with messages. */
    method RunNthTestCase(n: nat) returns (o: Outcome)
      modifies this
      ensures Effect(o, expectationFailed) == RunNth(old(entries), n, old(expectationFailed))
      ensures entries == old(entries) && silentMode == old(silentMode)
    {
      if n >= |entries| {
        return Raised(AssertionFailure);
      }
      var e := entries[n];
      o := CallAndCheck(e.body);
    }

    /** `list_registered_test_cases`: the listing lines, in name order. */
    method ListRegisteredTestCases() returns (lines: seq<string>)
      ensures lines == Listing(entries)
    {
      var width := CountNumWidth(|entries|);
      var index := 0;
      lines := [];
      while index < |entries|
        invariant 0 <= index <= |entries|
        invariant lines == Listing(entries)[..index]
      {
        PrefixSnoc(Listing(entries), index);
        lines := lines + [ListLine(index, width, entries[index])];
        index := index + 1;
      }
    }

    /** `discover_test_case(exe, guid, file)`, given the file's content (`None` when it
        cannot be opened for reading) and whether it can be opened for writing. */
    method DiscoverTestCase(exe: string, guid: string, config: Option<string>, writable: bool)
      returns (r: RunResult, written: Option<string>)
      ensures (r, written) == DiscoverResult(entries, exe, guid, config, writable)
    {
      if config.None? {
        return Handled(MinitestFailure), None;
      }
      var markLine := MarkLine(guid);
      var content := RemoveOldBlock(config.value, markLine + "\n");
      content := RemoveGuidLines(content, guid);
      if |entries| > 0 {
        var block := AppendTestCases(exe);
        if block.None? {
          // `assert(last_colon != string::npos)` ends the process.
          return Aborted, None;
        }
        ghost var b := BlockLines(entries, exe);
        JoinLinesAppend([markLine] + b, [markLine]);
        JoinLinesAppend([markLine], b);
        assert JoinLines([markLine]) == markLine + "\n";
        assert JoinLines([markLine] + b + [markLine]) == markLine + "\n" + block.value + markLine + "\n";
        content := content + (markLine + "\n" + block.value + markLine + "\n");
      }
      if !writable {
        return Handled(MinitestFailure), None;
      }
      return Handled(MinitestSuccess), Some(content);
    }

    /** The loop of `discover_test_case` over the registry: the two lines of every test
        case in name order, or `None` when a location holds no ':' (where the source's
        `assert` ends the process). */
    method AppendTestCases(exe: string) returns (block: Option<string>)
      ensures block.None? <==> !AllRewritable(entries)
      ensures block.Some? ==> block.value == JoinLines(BlockLines(entries, exe))
    {
      var content := "";
      var index := 0;
      ghost var lines: seq<string> := [];
      while index < |entries|
        invariant 0 <= index <= |entries|
        invariant AllRewritable(entries[..index])
        invariant lines == BlockLines(entries[..index], exe)
        invariant content == JoinLines(lines)
      {
        var e := entries[index];
        var add := AddTestLine(e.name, exe, NatStr(index));
        content := content + add + "\n";
        var lastColon := LastIndexOf(e.location, ':');
        if lastColon.None? {
          assert entries[index] == e;
          return None;
        }
        var location := ReplaceChar(e.location[lastColon.value := ';'], '\\', '/');
        var props := SetTestPropertiesLine(e.name, location);
        content := content + props + "\n";
        BlockLinesStep(entries, exe, index);
        JoinLinesPair(lines, add, props);
        lines := lines + [add, props];
        index := index + 1;
      }
      assert entries[..index] == entries;
      return Some(content);
    }

    /** `run_test(argc, argv)`: the scan of `argv[1..argc)` in order; the first
        recognised directive decides. */
    method RunTest(argc: int, argv: Argv, host: Host) returns (r: RunResult, listing: seq<string>, written: Option<string>)
      requires Valid() && ArgvShape(argc, argv)
      modifies this
      ensures Valid()
      ensures var d := Dispatch(old(State()), argc, argv, host);
              r == d.result && listing == d.listing && written == d.written && State() == d.after
    {
      if argc < 1 || argv.None? || argv.value[0].None? {
        return Handled(MinitestFailure), [], None;
      }
      var args := Args(argc, argv);
      var i := 1;
      while i < argc
        invariant 1 <= i <= argc
        invariant forall j :: 0 <= j < i - 1 ==> DirectiveAt(args, j).None?
        invariant State() == old(State())
      {
        var directive := DirectiveAt(args, i - 1);
        if directive.Some? {
          ScanIsFirst(args, i - 1);
          r, listing, written := PerformDirective(directive.value, host);
          return;
        }
        i := i + 1;
      }
      if |args| > 0 {
        ScanIsFirst(args, 0);
      }
      // `throw minitest_do_nothing{}`
      return DoNothing, [], None;
    }

    /** The branch of `run_test` for the directive found, as `Perform` describes it. */
    method PerformDirective(d: Directive, host: Host) returns (r: RunResult, listing: seq<string>, written: Option<string>)
      requires Valid()
      modifies this
      ensures Valid()
      ensures var reply := Perform(old(State()), d, host);
              r == reply.result && listing == reply.listing && written == reply.written && State() == reply.after
    {
      listing, written := [], None;
      match d
      case Help =>
        r := Handled(MinitestSuccess);
      case ListCases =>
        var lines := ListRegisteredTestCases();
        r, listing := Handled(MinitestSuccess), [ListHeader(host.exeName, |entries|)] + lines;
      case RunNamed(name) =>
        var o := RunRegisteredTestCase(name);
        r := RunTestCase(silentMode, o);
      case RunNthInternal(arg) =>
        silentMode := true;
        var index := ParseIndex(arg);
        if index.Err? {
          return Propagated(index.error), [], None;
        }
        var o := PriImplRunNthTestCase(index.value);
        r := RunTestCase(silentMode, o);
      case RunNthVerbose(arg) =>
        var index := ParseIndex(arg);
        if index.Err? {
          return Propagated(index.error), [], None;
        }
        var o := RunNthTestCase(index.value);
        r := RunTestCase(silentMode, o);
      case Discover(guid, _) =>
        r, written := DiscoverTestCase(host.exePath, guid, host.config, host.configWritable);
    }
  }
}
