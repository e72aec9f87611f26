/** What minitest.cpp does, as functions of the process state: running one test case,
    the two exception regimes of `run_test_case`, the scan of argv by `run_test`, the
    listing text and the text of the discovery block. The imperative code that performs
    these steps (the `Minitest` module) is proved to agree with these functions. */
module Runner {
  import opened Common
  import opened MinitestH
  import opened Registry
  import opened CTestText

  // ---------------------------------------------------------------------------
  // The expectation latch and running one test case

  /** `check_expectation_failure`: test-and-clear of the latch. */
  function CheckExpectation(latch: bool): (r: Effect)
    ensures !r.latch
    ensures r.outcome.Raised? <==> latch
    ensures r.outcome.Raised? ==> r.outcome.exc == AssertionFailure
  {
    if latch then Effect(Raised(AssertionFailure), false) else Effect(Normal, false)
  }

  /** Calls a test function and then `check_expectation_failure`. An exception out of
      the test function skips the check, so the latch keeps whatever the body left. */
  function Invoke(body: Body, latch: bool): (r: Effect)
    ensures var x := Exec(body, latch);
            && (x.outcome.Raised? ==> r == x)
            && (x.outcome.Normal? ==> !r.latch && (r.outcome.Raised? <==> x.latch))
            && (x.outcome.Normal? && r.outcome.Raised? ==> r.outcome.exc == AssertionFailure)
  {
    var x := Exec(body, latch);
    if x.outcome.Normal? then CheckExpectation(x.latch) else x
  }

  /** `run_registered_test_case(name)`: an unknown name raises the assertion failure
      without calling any test function. */
  function RunRegistered(es: seq<Entry>, name: string, latch: bool): (r: Effect)
    ensures name !in Names(es) ==> r == Effect(Raised(AssertionFailure), latch)
    ensures name in Names(es) ==>
      exists e :: e in es && e.name == name && r == Invoke(e.body, latch)
  {
    match Find(es, name)
    case None => Effect(Raised(AssertionFailure), latch)
    case Some(e) => Invoke(e.body, latch)
  }

  /** `run_nth_test_case(n)` and `pri_impl_run_nth_test_case(n)`, which differ only in
      what they print: an index not below the size raises the assertion failure without
      calling any test function; otherwise the `n`-th test case in name order runs. */
  function RunNth(es: seq<Entry>, n: nat, latch: bool): (r: Effect)
    ensures n >= |es| ==> r == Effect(Raised(AssertionFailure), latch)
    ensures n < |es| ==> r == Invoke(es[n].body, latch)
  {
    match Nth(es, n)
    case None => Effect(Raised(AssertionFailure), latch)
    case Some(e) => Invoke(e.body, latch)
  }

  /** `run_test_case`: a normal return is SUCCESS and an assertion failure (of any class
      derived from it too) is FAILURE. Any other exception escapes in non-silent mode and
      is FAILURE in silent mode. */
  function RunTestCase(silent: bool, o: Outcome): (r: RunResult)
    ensures o.Normal? <==> r == Handled(MinitestSuccess)
    ensures o.Raised? && IsAssertionFailure(o.exc) ==> r == Handled(MinitestFailure)
    ensures o.Raised? && !IsAssertionFailure(o.exc) ==>
      r == (if silent then Handled(MinitestFailure) else Propagated(o.exc))
  {
    match o
    case Normal => Handled(MinitestSuccess)
    case Raised(e) =>
      if IsAssertionFailure(e) || silent then Handled(MinitestFailure) else Propagated(e)
  }

  /** The verdict on one test function, by how its body ends: a failed EXPECT_ check
      turns a normal return into FAILURE, and the latch is clear after every normal return. */
  lemma InvokeVerdict(silent: bool, body: Body, latch: bool)
    ensures var x := Exec(body, latch);
            var r := Invoke(body, latch);
            var v := RunTestCase(silent, r.outcome);
            && (x.outcome.Normal? && !x.latch ==> v == Handled(MinitestSuccess) && !r.latch)
            && (x.outcome.Normal? && x.latch ==> v == Handled(MinitestFailure) && !r.latch)
            && (x.outcome.Raised? && IsAssertionFailure(x.outcome.exc) ==>
                  v == Handled(MinitestFailure) && r.latch == x.latch)
            && (x.outcome.Raised? && !IsAssertionFailure(x.outcome.exc) ==>
                  v == (if silent then Handled(MinitestFailure) else Propagated(x.outcome.exc)) && r.latch == x.latch)
  {
  }

  /** Silent mode never lets an exception out of `run_test_case`, and the two regimes
      agree on every outcome except an exception that is not an assertion failure. */
  lemma RegimesCompared(o: Outcome)
    ensures !RunTestCase(true, o).Propagated?
    ensures RunTestCase(true, o) != RunTestCase(false, o) <==>
      o.Raised? && !IsAssertionFailure(o.exc)
  {
  }

  // ---------------------------------------------------------------------------
  // The index operand (`std::stoul`)

  /** The largest `unsigned long` on an LP64 platform. */
  const ULongMax: nat := 0xFFFF_FFFF_FFFF_FFFF

  /** What `std::stoul` throws when no digits start the string, and when the value exceeds `ULongMax`. */
  const InvalidArgument: Exc := StdExc(["std::invalid_argument", "std::logic_error"])
  const OutOfRange: Exc := StdExc(["std::out_of_range", "std::logic_error"])

  /** The longest prefix of `s` made of decimal digits. */
  function DigitPrefix(s: string): (r: string)
    ensures AllDigits(r) && r <= s
    ensures |r| < |s| ==> !IsDigit(s[|r|])
  {
    if s == [] || !IsDigit(s[0]) then [] else [s[0]] + DigitPrefix(s[1..])
  }

  /** `std::stoul(s)` for operands without leading blanks or a sign: the value of the
      leading digits, or the exception `stoul` throws. */
  function ParseIndex(s: string): (r: Result<nat, Exc>)
    ensures r.Ok? ==> r.value <= ULongMax && DigitPrefix(s) != [] && r.value == DigitsValue(DigitPrefix(s))
    ensures r == Err(InvalidArgument) <==> s == [] || !IsDigit(s[0])
    ensures r == Err(OutOfRange) <==> DigitPrefix(s) != [] && DigitsValue(DigitPrefix(s)) > ULongMax
    ensures r.Err? ==> r == Err(InvalidArgument) || r == Err(OutOfRange)
  {
    var d := DigitPrefix(s);
    if d == [] then Err(InvalidArgument)
    else if DigitsValue(d) > ULongMax then Err(OutOfRange)
    else Ok(DigitsValue(d))
  }

  lemma {:induction false} DigitPrefixOfDigits(a: string, b: string)
    requires AllDigits(a)
    requires b == [] || !IsDigit(b[0])
    ensures DigitPrefix(a + b) == a
  {
    if a != [] {
      assert (a + b)[1..] == a[1..] + b;
      DigitPrefixOfDigits(a[1..], b);
      assert a == [a[0]] + a[1..];
    } else {
      assert a + b == b;
    }
  }

  /** The index written by discovery is read back exactly: `stoul` of the decimal text of
      `n`, followed by anything that does not start with a digit, is `n`. */
  lemma ParseIndexOfNatStr(n: nat, rest: string)
    requires n <= ULongMax
    requires rest == [] || !IsDigit(rest[0])
    ensures ParseIndex(NatStr(n) + rest) == Ok(n)
  {
    DigitPrefixOfDigits(NatStr(n), rest);
    NatStrValue(n);
  }

  // ---------------------------------------------------------------------------
  // Scanning argv

  /** A directive `run_test` acts on, with its operands. */
  datatype Directive =
    | Help
    | ListCases
    | RunNamed(name: string)
    | RunNthInternal(index: string)
    | RunNthVerbose(index: string)
    | Discover(guid: string, configFile: string)

  /** The directive that `args[k]` starts, if any; a directive whose operands are
      missing is not recognised. The tests are made in the source's order. */
  function DirectiveAt(args: seq<string>, k: nat): Option<Directive>
    requires k < |args|
  {
    if args[k] == FlagHelp then Some(Help)
    else if args[k] == FlagListTestCases then Some(ListCases)
    else if args[k] == FlagRunTestCase && k + 1 < |args| then Some(RunNamed(args[k + 1]))
    else if args[k] == FlagPriImplRunNthTestCase && k + 1 < |args| then Some(RunNthInternal(args[k + 1]))
    else if args[k] == FlagRunNthTestCase && k + 1 < |args| then Some(RunNthVerbose(args[k + 1]))
    else if args[k] == FlagPriImplDiscoverTestCases && k + 2 < |args| then Some(Discover(args[k + 1], args[k + 2]))
    else None
  }

  /** Help and list need no operand; a run directive is recognised only when an operand
      follows it and the discover directive only when two do. Nothing else is a directive. */
  lemma DirectiveOperands(args: seq<string>, k: nat)
    requires k < |args|
    ensures var d := DirectiveAt(args, k);
            && (args[k] in {FlagHelp, FlagListTestCases} ==> d.Some?)
            && (args[k] in {FlagRunTestCase, FlagPriImplRunNthTestCase, FlagRunNthTestCase} ==>
                  (d.Some? <==> k + 1 < |args|))
            && (args[k] == FlagPriImplDiscoverTestCases ==> (d.Some? <==> k + 2 < |args|))
            && (d.Some? ==>
                  args[k] in {FlagHelp, FlagListTestCases, FlagRunTestCase, FlagPriImplRunNthTestCase,
                              FlagRunNthTestCase, FlagPriImplDiscoverTestCases})
            && (d.Some? && d.value.RunNamed? ==> k + 1 < |args| && d.value.name == args[k + 1])
            && (d.Some? && (d.value.RunNthInternal? || d.value.RunNthVerbose?) ==>
                  k + 1 < |args| && d.value.index == args[k + 1])
            && (d.Some? && d.value.Discover? ==>
                  k + 2 < |args| && d.value.guid == args[k + 1] && d.value.configFile == args[k + 2])
  {
  }

  /** The directive each argument starts. */
  function Recognised(args: seq<string>): (ds: seq<Option<Directive>>)
    ensures |ds| == |args|
    ensures forall k :: 0 <= k < |args| ==> ds[k] == DirectiveAt(args, k)
  {
    seq(|args|, k requires 0 <= k < |args| => DirectiveAt(args, k))
  }

  /** The first present element of `ds` at or after `k`. */
  function FirstSome<T>(ds: seq<Option<T>>, k: nat): Option<T>
    decreases |ds| - k
  {
    if k >= |ds| then None
    else if ds[k].Some? then ds[k]
    else FirstSome(ds, k + 1)
  }

  /** The search from `k` finds nothing exactly when nothing is present from `k` on. */
  lemma {:induction false} FirstSomeNone<T>(ds: seq<Option<T>>, k: nat)
    ensures FirstSome(ds, k).None? <==> forall j :: k <= j < |ds| ==> ds[j].None?
    decreases |ds| - k
  {
    if k < |ds| && ds[k].None? {
      FirstSomeNone(ds, k + 1);
    }
  }

  /** What the search from `k` finds is present at a position before which, from `k`
      on, nothing is. */
  lemma {:induction false} FirstSomeLeftmost<T>(ds: seq<Option<T>>, k: nat)
    requires FirstSome(ds, k).Some?
    ensures exists j :: k <= j < |ds| && ds[j] == FirstSome(ds, k) && forall i :: k <= i < j ==> ds[i].None?
    decreases |ds| - k
  {
    if ds[k].None? {
      FirstSomeLeftmost(ds, k + 1);
      var j :| k + 1 <= j < |ds| && ds[j] == FirstSome(ds, k + 1) && forall i :: k + 1 <= i < j ==> ds[i].None?;
      assert forall i :: k <= i < j ==> ds[i].None?;
    } else {
      assert ds[k] == FirstSome(ds, k);
    }
  }

  /** When nothing is present in `[k, j)` and `ds[j]` is, the search from `k` returns `ds[j]`. */
  lemma {:induction false} FirstSomeFinds<T>(ds: seq<Option<T>>, k: nat, j: nat)
    requires k <= j < |ds| && ds[j].Some?
    requires forall i :: k <= i < j ==> ds[i].None?
    ensures FirstSome(ds, k) == ds[j]
    decreases j - k
  {
    if k < j {
      FirstSomeFinds(ds, k + 1, j);
    }
  }

  /** The left-to-right scan of `args`: the first recognised directive wins. */
  function Scan(args: seq<string>): Option<Directive>
  {
    FirstSome(Recognised(args), 0)
  }

  /** The scan returns the directive at the first position that has one, and nothing
      exactly when no position has one. */
  lemma ScanIsFirst(args: seq<string>, j: nat)
    requires j < |args|
    ensures Scan(args).None? <==> forall k :: 0 <= k < |args| ==> DirectiveAt(args, k).None?
    ensures DirectiveAt(args, j).Some? && (forall i :: 0 <= i < j ==> DirectiveAt(args, i).None?) ==>
      Scan(args) == DirectiveAt(args, j)
  {
    var ds := Recognised(args);
    FirstSomeNone(ds, 0);
    if DirectiveAt(args, j).Some? && (forall i :: 0 <= i < j ==> DirectiveAt(args, i).None?) {
      FirstSomeFinds(ds, 0, j);
    }
  }

  // ---------------------------------------------------------------------------
  // Listing

  /** The first line of both the help and the list output. */
  function ListHeader(exeName: string, n: nat): string
  {
    "minitest: " + exeName + " has " + NatStr(n) + " test case" + (if n > 1 then "s" else "") + "."
  }

  /** The header says "case" and adds "s" only for more than one test case. */
  lemma ListHeaderPlural(exeName: string, n: nat)
    ensures var h := ListHeader(exeName, n);
            |h| >= 2 && h[|h| - 1] == '.' && (h[|h| - 2] == 's' <==> n > 1)
  {
  }

  /** `format("{0:{1}}:{2}({3})", i, w, name, location)`. */
  function ListLine(i: nat, w: nat, e: Entry): string
  {
    PadLeft(NatStr(i), w) + ":" + e.name + "(" + e.location + ")"
  }

  /** `list_registered_test_cases`: one line per test case in name order, every index
      right-aligned to the width of the number of test cases. */
  function Listing(es: seq<Entry>): seq<string>
  {
    seq(|es|, i requires 0 <= i < |es| => ListLine(i, Digits(|es|), es[i]))
  }

  /** The listing has exactly one line per test case; line `i` carries index `i` and the
      `i`-th name, and its index field is exactly `Digits(|es|)` columns wide. */
  lemma ListingShape(es: seq<Entry>)
    ensures |Listing(es)| == |es|
    ensures forall i :: 0 <= i < |es| ==>
      var field := PadLeft(NatStr(i), Digits(|es|));
      && Listing(es)[i] == field + ":" + es[i].name + "(" + es[i].location + ")"
      && |field| == Digits(|es|)
      && field == Spaces(Digits(|es|) - |NatStr(i)|) + NatStr(i)
  {
    forall i | 0 <= i < |es|
      ensures |PadLeft(NatStr(i), Digits(|es|))| == Digits(|es|)
    {
      NatStrLength(i);
      DigitsMonotone(i, |es|);
      if i == 0 { DigitsBounds(|es|); }
      PadLeftWidth(NatStr(i), Digits(|es|));
    }
  }

  // ---------------------------------------------------------------------------
  // Discovery

  /** The line bracketing the block a target writes into a CTest file. */
  function MarkLine(guid: string): string
  {
    "# " + guid
  }

  /** The effect of `regex_replace` with `(marker)[\s\S]*\1`: from the first occurrence
      of `marker` through the end of its last occurrence, when the two do not overlap. */
  function RemoveOldBlock(content: string, marker: string): (r: string)
    ensures |r| <= |content|
  {
    match FindFrom(content, marker, 0)
    case None => content
    case Some(p) =>
      match FindLast(content, marker)
      case None => content
      case Some(q) => if q >= p + |marker| then content[..p] + content[q + |marker|..] else content
  }

  /** With its first occurrence at `p` and its last at `q`, not overlapping, the text
      from `p` through the end of the occurrence at `q` is removed. */
  lemma RemoveOldBlockSpan(content: string, marker: string, p: nat, q: nat)
    requires OccursAt(content, marker, p) && OccursAt(content, marker, q) && p + |marker| <= q
    requires forall j: nat :: j < p ==> !OccursAt(content, marker, j)
    requires forall j: nat :: q < j ==> !OccursAt(content, marker, j)
    ensures RemoveOldBlock(content, marker) == content[..p] + content[q + |marker|..]
  {
    var first := FindFrom(content, marker, 0);
    var last := FindLast(content, marker);
    assert first == Some(p);
    assert last == Some(q);
  }

  /** When no two occurrences of `marker` are apart (in particular when it occurs at most
      once), nothing is removed. */
  lemma RemoveOldBlockKeeps(content: string, marker: string)
    requires forall i: nat, j: nat :: OccursAt(content, marker, i) && OccursAt(content, marker, j) && i <= j ==> j < i + |marker|
    ensures RemoveOldBlock(content, marker) == content
  {
  }

  /** What `regex_replace` with `(.*guid.*\n)` leaves of one line `line` + "\n": `.` matches
      no line terminator, so a match starts after the line's last carriage return. When that
      tail holds `guid`, the tail and the newline go. */
  function KeepLine(line: string, guid: string): string
  {
    var start := match LastIndexOf(line, '\r') case None => 0 case Some(j) => j + 1;
    if Contains(line[start..], guid) then line[..start] else line + "\n"
  }

  /** `regex_replace` with `(.*guid.*\n)` over the whole text; a last line without its
      newline never matches. */
  function RemoveGuidLines(s: string, guid: string): string
    decreases |s|
  {
    match IndexOf(s, '\n')
    case None => s
    case Some(k) => KeepLine(s[..k], guid) + RemoveGuidLines(s[k + 1..], guid)
  }

  /** The location as `_BACKTRACE_TRIPLES` wants it: the last ':' becomes ';' and every
      backslash a forward slash. */
  function Backtrace(location: string): string
    requires ':' in location
  {
    var j := LastIndexOf(location, ':').value;
    ReplaceChar(location[j := ';'], '\\', '/')
  }

  /** A location made by TEST_CASE, `__FILE__ ":" __LINE__`. */
  function TestCaseLocation(file: string, line: nat): string
  {
    file + ":" + NatStr(line)
  }

  /** For `file:line` with no ':' in `line`, the backtrace is `file;line` with the
      backslashes of both parts turned into slashes; every TEST_CASE location has this form. */
  lemma BacktraceOfLocation(file: string, line: string)
    requires ':' !in line
    ensures ':' in file + ":" + line
    ensures Backtrace(file + ":" + line) == ReplaceChar(file, '\\', '/') + ";" + ReplaceChar(line, '\\', '/')
  {
    var loc := file + ":" + line;
    assert loc[|file|] == ':';
    var j := LastIndexOf(loc, ':').value;
    assert j == |file|;
    assert loc[j := ';'] == file + ";" + line;
    ReplaceCharAppend(file + ";", line, '\\', '/');
    ReplaceCharAppend(file, ";", '\\', '/');
  }

  lemma TestCaseLocationBacktrace(file: string, line: nat)
    ensures ':' in TestCaseLocation(file, line)
    ensures Backtrace(TestCaseLocation(file, line)) == ReplaceChar(file, '\\', '/') + ";" + NatStr(line)
  {
    var s := NatStr(line);
    BacktraceOfLocation(file, s);
    assert ReplaceChar(s, '\\', '/') == s by {
      forall k | 0 <= k < |s| ensures ReplaceChar(s, '\\', '/')[k] == s[k] { assert IsDigit(s[k]); }
    }
  }

  /** Every location has a ':' to turn into ';'. */
  predicate AllRewritable(es: seq<Entry>)
  {
    forall i :: 0 <= i < |es| ==> ':' in es[i].location
  }

  /** The two lines written for the test case `e` with run-nth index `k`. */
  function EntryLines(e: Entry, exe: string, k: nat): seq<string>
    requires ':' in e.location
  {
    [AddTestLine(e.name, exe, NatStr(k)), SetTestPropertiesLine(e.name, Backtrace(e.location))]
  }

  /** The lines between the two mark lines, for the test cases in order. */
  function BlockLines(es: seq<Entry>, exe: string): seq<string>
    requires AllRewritable(es)
  {
    if es == [] then [] else BlockLines(es[..|es| - 1], exe) + EntryLines(es[|es| - 1], exe, |es| - 1)
  }

  /** The block for one more test case ends with that test case's two lines. */
  lemma BlockLinesStep(es: seq<Entry>, exe: string, n: nat)
    requires n < |es| && AllRewritable(es[..n]) && ':' in es[n].location
    ensures AllRewritable(es[..n + 1])
    ensures BlockLines(es[..n + 1], exe) == BlockLines(es[..n], exe) + EntryLines(es[n], exe, n)
  {
    var init := es[..n + 1];
    assert init[..n] == es[..n];
    assert init[n] == es[n];
    assert forall i :: 0 <= i < n ==> init[i] == es[..n][i];
  }

  /** The block holds exactly one `add_test` and one `set_tests_properties` line per test
      case, in name order, the `k`-th test case registered with run-nth index `k`. */
  lemma {:induction false} BlockLinesShape(es: seq<Entry>, exe: string)
    requires AllRewritable(es)
    ensures |BlockLines(es, exe)| == 2 * |es|
    ensures forall k :: 0 <= k < |es| ==>
      && BlockLines(es, exe)[2 * k] == AddTestLine(es[k].name, exe, NatStr(k))
      && BlockLines(es, exe)[2 * k + 1] == SetTestPropertiesLine(es[k].name, Backtrace(es[k].location))
  {
    if es != [] {
      var n := |es| - 1;
      var init := es[..n];
      assert AllRewritable(init);
      BlockLinesShape(init, exe);
      var b := BlockLines(init, exe);
      var pair := EntryLines(es[n], exe, n);
      assert BlockLines(es, exe) == b + pair;
      forall k | 0 <= k < |es|
        ensures (b + pair)[2 * k] == AddTestLine(es[k].name, exe, NatStr(k))
        ensures (b + pair)[2 * k + 1] == SetTestPropertiesLine(es[k].name, Backtrace(es[k].location))
      {
        if k < n {
          assert init[k] == es[k];
          assert (b + pair)[2 * k] == b[2 * k];
          assert (b + pair)[2 * k + 1] == b[2 * k + 1];
        }
      }
    }
  }

  /** The new content of the CTest file, or `None` when a location without a ':' makes
      the `assert` abort the process. Stale lines go first; a non-empty registry then gets
      its block, bracketed by two mark lines, and an empty one appends nothing. */
  function DiscoverContent(content: string, guid: string, es: seq<Entry>, exe: string): (r: Option<string>)
    ensures r.None? <==> !AllRewritable(es)
  {
    var cleaned := RemoveGuidLines(RemoveOldBlock(content, MarkLine(guid) + "\n"), guid);
    if !AllRewritable(es) then None
    else if es == [] then Some(cleaned)
    else Some(cleaned + JoinLines([MarkLine(guid)] + BlockLines(es, exe) + [MarkLine(guid)]))
  }

  /** `discover_test_case` given the content of the CTest file (`None` when it cannot be
      opened for reading) and whether it can be opened for writing: FAILURE on either
      failure to open, an abort on a location without ':', otherwise SUCCESS with the new
      content written. */
  function DiscoverResult(es: seq<Entry>, exe: string, guid: string, config: Option<string>, writable: bool)
    : (r: (RunResult, Option<string>))
    ensures config.None? ==> r == (Handled(MinitestFailure), None)
    ensures r.1.Some? <==> config.Some? && AllRewritable(es) && writable
    ensures r.1.Some? ==> r == (Handled(MinitestSuccess), DiscoverContent(config.value, guid, es, exe))
    ensures config.Some? && !AllRewritable(es) ==> r.0 == Aborted
  {
    if config.None? then (Handled(MinitestFailure), None)
    else match DiscoverContent(config.value, guid, es, exe)
      case None => (Aborted, None)
      case Some(c) => if writable then (Handled(MinitestSuccess), Some(c)) else (Handled(MinitestFailure), None)
  }

  /** The text `regex_replace` with `(.*guid.*\n)` leaves of a text without carriage
      returns: whole lines that do not hold `guid`, then an unterminated last line. */
  lemma {:induction false} RemoveGuidLinesShape(s: string, guid: string) returns (kept: seq<string>, tail: string)
    requires '\r' !in s
    ensures RemoveGuidLines(s, guid) == JoinLines(kept) + tail
    ensures forall i :: 0 <= i < |kept| ==> '\n' !in kept[i] && '\r' !in kept[i] && !Contains(kept[i], guid)
    ensures '\n' !in tail && '\r' !in tail
    decreases |s|
  {
    match IndexOf(s, '\n')
    case None =>
      kept, tail := [], s;
    case Some(k) =>
      var line := s[..k];
      assert '\r' !in line && '\r' !in s[k + 1..] by {
        assert forall c :: c in line || c in s[k + 1..] ==> c in s;
      }
      assert LastIndexOf(line, '\r').None?;
      assert line[0..] == line;
      var kept', tail' := RemoveGuidLinesShape(s[k + 1..], guid);
      tail := tail';
      if Contains(line, guid) {
        kept := kept';
      } else {
        kept := [line] + kept';
        assert kept[1..] == kept';
      }
  }

  /** A whole line without `guid` is kept as it is. */
  lemma RemoveGuidLinesCons(l: string, rest: string, guid: string)
    requires '\n' !in l && '\r' !in l && !Contains(l, guid)
    ensures RemoveGuidLines(l + "\n" + rest, guid) == l + "\n" + RemoveGuidLines(rest, guid)
  {
    var s := l + "\n" + rest;
    assert s == l + ("\n" + rest);
    IndexOfPrefix(l, "\n" + rest, '\n');
    assert s[..|l|] == l;
    assert s[|l| + 1..] == rest;
    assert LastIndexOf(l, '\r').None?;
    assert l[0..] == l;
  }

  /** Whole lines without `guid` and a last line without a newline are left as they are. */
  lemma {:induction false} RemoveGuidLinesFixed(kept: seq<string>, tail: string, guid: string)
    requires forall i :: 0 <= i < |kept| ==> '\n' !in kept[i] && '\r' !in kept[i] && !Contains(kept[i], guid)
    requires '\n' !in tail
    ensures RemoveGuidLines(JoinLines(kept) + tail, guid) == JoinLines(kept) + tail
  {
    if kept != [] {
      var rest := JoinLines(kept[1..]) + tail;
      assert JoinLines(kept) + tail == kept[0] + "\n" + rest;
      RemoveGuidLinesCons(kept[0], rest, guid);
      RemoveGuidLinesFixed(kept[1..], tail, guid);
    }
  }

  /** Removing the old block only drops characters. */
  lemma RemoveOldBlockChars(content: string, marker: string, c: char)
    requires c !in content
    ensures c !in RemoveOldBlock(content, marker)
  {
    match FindFrom(content, marker, 0)
    case None =>
    case Some(p) =>
      match FindLast(content, marker)
      case None =>
      case Some(q) =>
        if q >= p + |marker| {
          assert forall x :: x in content[..p] || x in content[q + |marker|..] ==> x in content;
        }
  }

  /** A mark line ends with the only newline of `MarkLine(guid) + "\n"`. */
  lemma MarkNewline(guid: string)
    requires '\n' !in guid
    ensures var m := MarkLine(guid) + "\n";
            m[|m| - 1] == '\n' && forall i :: 0 <= i < |m| - 1 ==> m[i] != '\n'
  {
    var m := MarkLine(guid) + "\n";
    forall i | 2 <= i < |m| - 1 ensures m[i] != '\n' {
      assert m[i] == guid[i - 2];
    }
  }

  /** A mark line does not start in a line that does not hold `guid`. */
  lemma MarkAfterLine(l: string, rest: string, guid: string, p: nat)
    requires '\n' !in l && '\n' !in guid && !Contains(l, guid)
    requires OccursAt(l + "\n" + rest, MarkLine(guid) + "\n", p)
    ensures |l| < p
  {
    var m := MarkLine(guid) + "\n";
    MarkNewline(guid);
    var s := l + "\n" + rest;
    assert s[p..p + |m|] == m;
    forall i | 0 <= i < |l| ensures s[i] != '\n' {
      assert s[i] == l[i] && l[i] in l;
    }
    assert s[|l|] == '\n';
    if p <= |l| {
      var e := p + |m| - 1;
      assert s[e] == m[|m| - 1];
      forall i | p <= i < e ensures s[i] != '\n' {
        assert s[i] == m[i - p];
      }
      if e == |l| {
        assert l[p..] == MarkLine(guid) by {
          assert l[p..] == s[p..e];
          assert s[p..e] == m[..|m| - 1];
        }
        assert l[p + 2..p + 2 + |guid|] == guid by {
          assert l[p + 2..p + 2 + |guid|] == l[p..][2..];
        }
        assert OccursAt(l, guid, p + 2);
        assert false;
      } else {
        // The newline `s[e]` lies inside `l`, or the one after `l` inside the mark line.
        assert false;
      }
    }
  }

  /** In lines none of which holds `guid`, the mark line does not start: an occurrence of
      it in `JoinLines(ls) + tail` lies after the first `j` lines when none of them holds
      `guid`. */
  lemma {:induction false} NoMarkBefore(ls: seq<string>, tail: string, guid: string, j: nat, p: nat)
    requires forall i :: 0 <= i < |ls| ==> '\n' !in ls[i]
    requires '\n' !in guid
    requires j <= |ls| && forall i :: 0 <= i < j ==> !Contains(ls[i], guid)
    requires OccursAt(JoinLines(ls) + tail, MarkLine(guid) + "\n", p)
    ensures |JoinLines(ls[..j])| <= p
    decreases j
  {
    if j > 0 {
      var m := MarkLine(guid) + "\n";
      var l := ls[0];
      var rest := JoinLines(ls[1..]) + tail;
      var s := JoinLines(ls) + tail;
      assert s == l + "\n" + rest;
      MarkAfterLine(l, rest, guid, p);
      assert rest[p - |l| - 1..p - |l| - 1 + |m|] == s[p..p + |m|];
      NoMarkBefore(ls[1..], tail, guid, j - 1, p - |l| - 1);
      assert ls[..j] == [l] + ls[1..][..j - 1];
      assert ([l] + ls[1..][..j - 1])[1..] == ls[1..][..j - 1];
    }
  }

  /** Text left by the removal of `guid` lines holds no mark line. */
  lemma CleanedHasNoMark(kept: seq<string>, tail: string, guid: string)
    requires forall i :: 0 <= i < |kept| ==> '\n' !in kept[i] && !Contains(kept[i], guid)
    requires '\n' !in tail && '\n' !in guid
    ensures forall p: nat :: !OccursAt(JoinLines(kept) + tail, MarkLine(guid) + "\n", p)
  {
    var m := MarkLine(guid) + "\n";
    var j := JoinLines(kept);
    var x := j + tail;
    MarkNewline(guid);
    forall i | |j| <= i < |x| ensures x[i] != '\n' {
      assert x[i] == tail[i - |j|] && tail[i - |j|] in tail;
    }
    forall p: nat | OccursAt(x, m, p) ensures false {
      assert x[p + |m| - 1] == '\n' by {
        assert x[p..p + |m|] == m;
      }
      assert kept[..|kept|] == kept;
      NoMarkBefore(kept, tail, guid, |kept|, p);
    }
  }

  /** The block discovery writes begins and ends with the mark line. */
  lemma BlockText(mark: string, b: seq<string>)
    ensures JoinLines([mark] + b + [mark]) == (mark + "\n") + JoinLines(b) + (mark + "\n")
  {
    assert ([mark] + b + [mark])[1..] == b + [mark];
    JoinLinesSnoc(b, mark);
  }

  /** In cleaned text followed by a block that opens with the mark line, no mark line
      starts before the block. */
  lemma FirstMarkOpensBlock(kept: seq<string>, tail: string, guid: string, t: string, p: nat)
    requires forall i :: 0 <= i < |kept| ==> '\n' !in kept[i] && !Contains(kept[i], guid)
    requires '\n' !in tail && '\n' !in guid
    requires |MarkLine(guid) + "\n"| <= |t| && t[..|MarkLine(guid) + "\n"|] == MarkLine(guid) + "\n"
    requires OccursAt(JoinLines(kept) + tail + t, MarkLine(guid) + "\n", p)
    ensures |JoinLines(kept) + tail| <= p
  {
    var m := MarkLine(guid) + "\n";
    MarkNewline(guid);
    var j := JoinLines(kept);
    var x := j + tail;
    var s := x + t;
    var e := p + |m| - 1;
    assert s[e] == '\n' by {
      assert s[p..p + |m|] == m;
    }
    forall i | |j| <= i < |x| ensures s[i] != '\n' {
      assert s[i] == tail[i - |j|] && tail[i - |j|] in tail;
    }
    forall i | |x| <= i < |x| + |m| - 1 ensures s[i] != '\n' {
      assert s[i] == t[..|m|][i - |x|];
    }
    assert s == j + (tail + t);
    assert kept[..|kept|] == kept;
    NoMarkBefore(kept, tail + t, guid, |kept|, p);
  }

  /** In cleaned text followed by a block bracketed by mark lines, the first mark line
      opens the block and the last one closes it. */
  lemma WrittenBlockMarks(kept: seq<string>, tail: string, guid: string, mid: string)
    requires forall i :: 0 <= i < |kept| ==> '\n' !in kept[i] && !Contains(kept[i], guid)
    requires '\n' !in tail && '\n' !in guid
    ensures var x := JoinLines(kept) + tail;
            var m := MarkLine(guid) + "\n";
            var s := x + (m + mid + m);
            OccursAt(s, m, |x|) && OccursAt(s, m, |s| - |m|) &&
            forall p: nat :: OccursAt(s, m, p) ==> |x| <= p
  {
    var m := MarkLine(guid) + "\n";
    var x := JoinLines(kept) + tail;
    var t := m + mid + m;
    var s := x + t;
    assert t[..|m|] == m;
    assert s[|x|..|x| + |m|] == m;
    assert s[|s| - |m|..|s|] == m;
    forall p: nat | OccursAt(s, m, p) ensures |x| <= p {
      FirstMarkOpensBlock(kept, tail, guid, t, p);
    }
  }

  /** Discovery run again on the CTest file it wrote writes the same file: the block it
      wrote is found between its two mark lines and replaced by the same block, and the
      stale lines it removed are gone. This holds for a file without carriage returns and
      a `guid` without a newline. */
  lemma DiscoverContentIdempotent(content: string, guid: string, es: seq<Entry>, exe: string)
    requires '\r' !in content && '\n' !in guid
    requires AllRewritable(es)
    ensures DiscoverContent(content, guid, es, exe).Some?
    ensures var once := DiscoverContent(content, guid, es, exe).value;
            DiscoverContent(once, guid, es, exe) == Some(once)
  {
    var m := MarkLine(guid) + "\n";
    RemoveOldBlockChars(content, m, '\r');
    var kept, tail := RemoveGuidLinesShape(RemoveOldBlock(content, m), guid);
    var x := JoinLines(kept) + tail;
    RemoveGuidLinesFixed(kept, tail, guid);
    if es == [] {
      CleanedHasNoMark(kept, tail, guid);
      RemoveOldBlockKeeps(x, m);
    } else {
      var mid := JoinLines(BlockLines(es, exe));
      var s := x + (m + mid + m);
      BlockText(MarkLine(guid), BlockLines(es, exe));
      WrittenBlockMarks(kept, tail, guid, mid);
      RemoveOldBlockSpan(s, m, |x|, |s| - |m|);
      assert s[..|x|] + s[|s|..] == x;
    }
  }

  // ---------------------------------------------------------------------------
  // run_test

  /** The three process-wide variables of minitest.cpp: the registry, the expectation
      latch and the silent flag. */
  datatype Process = Process(entries: seq<Entry>, latch: bool, silent: bool)

  /** `argv` as the C runtime passes it: a possibly null array of possibly null strings. */
  type Argv = Option<seq<Option<string>>>

  /** What `run_test` reads of `argv` is there: for a non-null array and `argc >= 1`, the
      first `argc` pointers exist and those after `argv[0]` are non-null. */
  predicate ArgvShape(argc: int, argv: Argv)
  {
    argv.Some? && argc >= 1 ==> argc <= |argv.value| && forall i :: 1 <= i < argc ==> argv.value[i].Some?
  }

  /** The arguments `run_test` accepts: `argc >= 1`, and `argv` and `argv[0]` non-null. */
  predicate ArgsValid(argc: int, argv: Argv)
    requires ArgvShape(argc, argv)
  {
    argc >= 1 && argv.Some? && argv.value[0].Some?
  }

  /** `argv[1..argc)`. */
  function Args(argc: int, argv: Argv): (r: seq<string>)
    requires ArgvShape(argc, argv) && ArgsValid(argc, argv)
    ensures |r| == argc - 1
    ensures forall k :: 0 <= k < |r| ==> Some(r[k]) == argv.value[k + 1]
  {
    seq(argc - 1, k requires 0 <= k < argc - 1 => argv.value[k + 1].value)
  }

  /** What the file system tells `run_test`: the file name and the absolute generic path
      of `argv[0]`, the content of the CTest file a discover directive names (`None` when
      it cannot be opened) and whether that file can be opened for writing. */
  datatype Host = Host(exeName: string, exePath: string, config: Option<string>, configWritable: bool)

  /** How `run_test` ended, the process state after it, the lines the list directive
      prints (its header, then the listing) and what discovery wrote to the CTest file. */
  datatype Reply = Reply(result: RunResult, after: Process, listing: seq<string>, written: Option<string>)

  /** Both run-nth directives: the flag is set (for the internal one) before the operand
      is parsed, and a malformed operand escapes as `stoul`'s exception. */
  function RunNthReply(p: Process, silent: bool, arg: string): Reply
  {
    var p1 := p.(silent := silent);
    match ParseIndex(arg)
    case Err(e) => Reply(Propagated(e), p1, [], None)
    case Ok(n) =>
      var x := RunNth(p.entries, n, p.latch);
      Reply(RunTestCase(silent, x.outcome), p1.(latch := x.latch), [], None)
  }

  /** `run_test(argc, argv)` from the process state `p`. */
  function Dispatch(p: Process, argc: int, argv: Argv, host: Host): Reply
    requires ArgvShape(argc, argv)
  {
    if !ArgsValid(argc, argv) then Reply(Handled(MinitestFailure), p, [], None)
    else match Scan(Args(argc, argv))
      case None => Reply(DoNothing, p, [], None)
      case Some(d) => Perform(p, d, host)
  }

  /** What `run_test` does for the directive it found. */
  function Perform(p: Process, d: Directive, host: Host): Reply
  {
    match d
    case Help => Reply(Handled(MinitestSuccess), p, [], None)
    case ListCases =>
      Reply(Handled(MinitestSuccess), p, [ListHeader(host.exeName, |p.entries|)] + Listing(p.entries), None)
    case RunNamed(name) =>
      var x := RunRegistered(p.entries, name, p.latch);
      Reply(RunTestCase(p.silent, x.outcome), p.(latch := x.latch), [], None)
    case RunNthInternal(arg) => RunNthReply(p, true, arg)
    case RunNthVerbose(arg) => RunNthReply(p, p.silent, arg)
    case Discover(guid, _) =>
      var (r, w) := DiscoverResult(p.entries, host.exePath, guid, host.config, host.configWritable);
      Reply(r, p, [], w)
  }

  /** The directive found by the scan, or `None` for invalid arguments or none found. */
  function Chosen(argc: int, argv: Argv): Option<Directive>
    requires ArgvShape(argc, argv)
  {
    if ArgsValid(argc, argv) then Scan(Args(argc, argv)) else None
  }

  /** Invalid arguments give FAILURE; no directive raises `minitest_do_nothing`; help and
      list give SUCCESS. None of them changes the process state. */
  lemma DispatchWithoutTest(p: Process, argc: int, argv: Argv, host: Host)
    requires ArgvShape(argc, argv)
    ensures var d := Dispatch(p, argc, argv, host);
            && (!ArgsValid(argc, argv) ==> d == Reply(Handled(MinitestFailure), p, [], None))
            && (ArgsValid(argc, argv) && Chosen(argc, argv).None? ==> d == Reply(DoNothing, p, [], None))
            && (Chosen(argc, argv) == Some(Help) ==> d == Reply(Handled(MinitestSuccess), p, [], None))
            && (Chosen(argc, argv) == Some(ListCases) ==>
                  d.result == Handled(MinitestSuccess) && d.after == p && |d.listing| == |p.entries| + 1)
  {
    if Chosen(argc, argv) == Some(ListCases) {
      ListingShape(p.entries);
    }
  }

  /** Only the internal run-nth directive touches the silent flag, and it sets it; the
      registry never changes; the latch changes only when a test function runs. */
  lemma DispatchFrame(p: Process, argc: int, argv: Argv, host: Host)
    requires ArgvShape(argc, argv)
    ensures var d := Dispatch(p, argc, argv, host);
            && d.after.entries == p.entries
            && d.after.silent == (p.silent || (Chosen(argc, argv).Some? && Chosen(argc, argv).value.RunNthInternal?))
            && (p.silent ==> d.after.silent)
            && (d.after.latch != p.latch ==>
                  && Chosen(argc, argv).Some?
                  && (Chosen(argc, argv).value.RunNamed? || Chosen(argc, argv).value.RunNthInternal?
                      || Chosen(argc, argv).value.RunNthVerbose?))
  {
    if ArgsValid(argc, argv) && Scan(Args(argc, argv)).Some? {
      PerformFrame(p, Scan(Args(argc, argv)).value, host);
    }
  }

  /** The frame of one directive: the registry is kept, the silent flag is set by the
      internal run-nth directive only, and the latch moves only when a test runs. */
  lemma PerformFrame(p: Process, d: Directive, host: Host)
    ensures var r := Perform(p, d, host);
            && r.after.entries == p.entries
            && r.after.silent == (p.silent || d.RunNthInternal?)
            && (r.after.latch != p.latch ==> d.RunNamed? || d.RunNthInternal? || d.RunNthVerbose?)
  {
    match d
    case RunNthInternal(arg) =>
    case RunNthVerbose(arg) =>
    case _ =>
  }

  /** A name that is not registered, or an index not below the number of test cases,
      gives FAILURE without calling any test function: the latch is as before. */
  lemma DispatchMissingTest(p: Process, argc: int, argv: Argv, host: Host)
    requires ArgvShape(argc, argv)
    ensures var d := Dispatch(p, argc, argv, host);
            var c := Chosen(argc, argv);
            && (c.Some? && c.value.RunNamed? && c.value.name !in Names(p.entries) ==>
                  d.result == Handled(MinitestFailure) && d.after.latch == p.latch)
            && (c.Some? && (c.value.RunNthInternal? || c.value.RunNthVerbose?) &&
                ParseIndex(c.value.index).Ok? && ParseIndex(c.value.index).value >= |p.entries| ==>
                  d.result == Handled(MinitestFailure) && d.after.latch == p.latch)
  {
  }

  /** A malformed index escapes `run_test` with `stoul`'s exception, in both modes, even
      though the internal directive has already set the silent flag. */
  lemma DispatchMalformedIndex(p: Process, argc: int, argv: Argv, host: Host)
    requires ArgvShape(argc, argv)
    ensures var d := Dispatch(p, argc, argv, host);
            var c := Chosen(argc, argv);
            c.Some? && (c.value.RunNthInternal? || c.value.RunNthVerbose?) && ParseIndex(c.value.index).Err? ==>
              && d.result == Propagated(ParseIndex(c.value.index).error)
              && d.after.latch == p.latch
              && d.after.silent == (p.silent || c.value.RunNthInternal?)
  {
  }

  /** A found test case runs with the latch as it was, and its verdict is `run_test_case`'s
      in the mode the directive selects: silent for the internal directive, the current
      mode otherwise. */
  lemma DispatchRunsTest(p: Process, argc: int, argv: Argv, host: Host)
    requires ArgvShape(argc, argv)
    ensures var d := Dispatch(p, argc, argv, host);
            var c := Chosen(argc, argv);
            && (c.Some? && c.value.RunNamed? && c.value.name in Names(p.entries) ==>
                  var e := Find(p.entries, c.value.name).value;
                  var x := Invoke(e.body, p.latch);
                  d.result == RunTestCase(p.silent, x.outcome) && d.after.latch == x.latch)
            && (c.Some? && (c.value.RunNthInternal? || c.value.RunNthVerbose?) &&
                ParseIndex(c.value.index).Ok? && ParseIndex(c.value.index).value < |p.entries| ==>
                  var x := Invoke(p.entries[ParseIndex(c.value.index).value].body, p.latch);
                  d.result == RunTestCase(p.silent || c.value.RunNthInternal?, x.outcome) && d.after.latch == x.latch)
  {
  }
}
