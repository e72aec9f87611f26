/** The standalone discovery tool `minitest_discover_tests`: it reads the listing a test
    executable prints between two `guid` lines, parses every listed test case with the
    pattern `([0-9]+):(.+)\((.+):(.+)\)`, writes one `add_test` and one
    `set_tests_properties` line per test case, and points the CTest configuration file at
    the generated file. */
module DiscoverTests {
  import opened Common
  import opened CTestText
  import opened Registry
  import opened Runner

  // ---------------------------------------------------------------------------
  // Splitting the output into lines

  /** The pieces of `s` between newlines, the last one running to the end of `s`. */
  function Pieces(s: string): (r: seq<string>)
    ensures |r| >= 1
    ensures forall i :: 0 <= i < |r| ==> '\n' !in r[i]
    decreases |s|
  {
    match IndexOf(s, '\n')
    case None => [s]
    case Some(k) => [s[..k]] + Pieces(s[k + 1..])
  }

  /** The pieces put back together with a newline between each two. */
  function Unsplit(ls: seq<string>): string
    requires |ls| >= 1
  {
    if |ls| == 1 then ls[0] else ls[0] + "\n" + Unsplit(ls[1..])
  }

  /** Splitting loses nothing: the pieces joined by newlines are the text again. */
  lemma {:induction false} PiecesUnsplit(s: string)
    ensures Unsplit(Pieces(s)) == s
    decreases |s|
  {
    match IndexOf(s, '\n')
    case None =>
    case Some(k) =>
      PiecesUnsplit(s[k + 1..]);
      assert s == s[..k] + "\n" + s[k + 1..];
  }

  /** `output | std::views::split('\n')`: no piece at all for the empty output, and
      otherwise every piece, with an empty last piece after a final newline. */
  function SplitLines(s: string): (r: seq<string>)
    ensures s == [] <==> r == []
    ensures r != [] ==> Unsplit(r) == s
    ensures forall i :: 0 <= i < |r| ==> '\n' !in r[i]
  {
    if s == [] then [] else PiecesUnsplit(s); Pieces(s)
  }

  /** Output printed line by line splits into those lines and one empty piece. */
  lemma {:induction false} SplitPrintedLines(ls: seq<string>)
    requires forall i :: 0 <= i < |ls| ==> '\n' !in ls[i]
    ensures Pieces(JoinLines(ls)) == ls + [""]
  {
    if ls == [] {
      assert IndexOf("", '\n') == None;
    } else {
      var l := ls[0];
      var rest := "\n" + JoinLines(ls[1..]);
      assert JoinLines(ls) == l + rest;
      IndexOfPrefix(l, rest, '\n');
      assert (l + rest)[..|l|] == l;
      assert (l + rest)[|l| + 1..] == JoinLines(ls[1..]);
      SplitPrintedLines(ls[1..]);
      assert ls + [""] == [l] + (ls[1..] + [""]);
    }
  }

  // ---------------------------------------------------------------------------
  // Selecting the lines between the two guid lines

  /** The position of the first line equal to `guid`, or the number of lines. */
  function FirstIndex(ls: seq<string>, guid: string): (n: nat)
    ensures n <= |ls| && guid !in ls[..n]
    ensures n < |ls| ==> ls[n] == guid
  {
    if ls == [] || ls[0] == guid then 0
    else
      var n := FirstIndex(ls[1..], guid);
      assert ls[..n + 1] == [ls[0]] + ls[1..][..n];
      n + 1
  }

  /** `drop_while(line != guid)`: the lines from the first one equal to `guid` on. */
  function DropUntil(ls: seq<string>, guid: string): (r: seq<string>)
    ensures |r| <= |ls| && r == ls[|ls| - |r|..]
    ensures guid !in ls[..|ls| - |r|]
    ensures r != [] ==> r[0] == guid
  {
    ls[FirstIndex(ls, guid)..]
  }

  /** `take_while(line != guid)`: the lines before the first one equal to `guid`. */
  function TakeUntil(ls: seq<string>, guid: string): (r: seq<string>)
    ensures |r| <= |ls| && r == ls[..|r|]
    ensures guid !in r
    ensures |r| < |ls| ==> ls[|r|] == guid
  {
    ls[..FirstIndex(ls, guid)]
  }

  /** `filter(!line.empty())`. */
  function NonEmpty(ls: seq<string>): (r: seq<string>)
    ensures forall l :: l in r <==> l in ls && l != []
    ensures |r| <= |ls|
  {
    if ls == [] then []
    else if ls[0] == [] then NonEmpty(ls[1..])
    else [ls[0]] + NonEmpty(ls[1..])
  }

  lemma {:induction false} NonEmptyAppend(a: seq<string>, b: seq<string>)
    ensures NonEmpty(a + b) == NonEmpty(a) + NonEmpty(b)
  {
    if a != [] {
      assert (a + b)[1..] == a[1..] + b;
      NonEmptyAppend(a[1..], b);
    } else {
      assert a + b == b;
    }
  }

  /** The lines `main` parses: the non-empty ones after the first `guid` line, up to the
      next `guid` line or the end. */
  function SelectLines(ls: seq<string>, guid: string): seq<string>
  {
    var from := DropUntil(ls, guid);
    NonEmpty(TakeUntil(if from == [] then [] else from[1..], guid))
  }

  /** Without a `guid` line nothing is selected. */
  lemma SelectNothing(ls: seq<string>, guid: string)
    requires guid !in ls
    ensures SelectLines(ls, guid) == []
  {
  }

  /** With the first `guid` line at `i` and the next one at `j` (or `j` the end), exactly
      the non-empty lines strictly between them are selected, in order. */
  lemma SelectBetween(ls: seq<string>, guid: string, i: nat, j: nat)
    requires i < j <= |ls| && ls[i] == guid && guid !in ls[..i]
    requires guid !in ls[i + 1..j] && (j < |ls| ==> ls[j] == guid)
    ensures SelectLines(ls, guid) == NonEmpty(ls[i + 1..j])
  {
    FirstIndexAt(ls, guid, i);
    var rest := ls[i + 1..];
    assert rest[..j - (i + 1)] == ls[i + 1..j];
    FirstIndexAt(rest, guid, j - (i + 1));
    assert DropUntil(ls, guid)[1..] == rest;
  }

  /** The first `guid` line is at `i` when none comes before and `ls[i]` is one. */
  lemma FirstIndexAt(ls: seq<string>, guid: string, i: nat)
    requires i <= |ls| && guid !in ls[..i] && (i < |ls| ==> ls[i] == guid)
    ensures FirstIndex(ls, guid) == i
  {
  }

  // ---------------------------------------------------------------------------
  // Parsing one listed line

  /** The four groups of `([0-9]+):(.+)\((.+):(.+)\)`: index, name, file and line. */
  datatype TestLine = TestLine(index: string, name: string, file: string, lineNumber: string)

  /** The text the four groups match together. */
  function MatchedText(t: TestLine): string
  {
    t.index + ":" + Listed(t.name, t.file, t.lineNumber)
  }

  /** `name(file:line)`, the part of a listed line after the index and its ':'. */
  function Listed(name: string, file: string, ln: string): string
  {
    name + "(" + file + ":" + ln + ")"
  }

  predicate NoBreak(s: string)
  {
    '\r' !in s && '\n' !in s
  }

  /** The length of the run of decimal digits `t` starts with. */
  function LeadingDigits(t: string): (n: nat)
    ensures n <= |t| && AllDigits(t[..n])
    ensures n < |t| ==> !IsDigit(t[n])
  {
    if t == [] || !IsDigit(t[0]) then 0
    else
      var n := LeadingDigits(t[1..]);
      assert t[..n + 1] == [t[0]] + t[1..][..n];
      1 + n
  }

  /** The longest prefix of `t` that `.` can match: ECMAScript's `.` matches neither a
      carriage return nor a newline. */
  function UpToBreak(t: string): (r: string)
    ensures |r| <= |t| && r == t[..|r|] && NoBreak(r)
    ensures |r| < |t| ==> t[|r|] == '\r' || t[|r|] == '\n'
  {
    if t == [] || t[0] == '\r' || t[0] == '\n' then []
    else
      var r := UpToBreak(t[1..]);
      assert [t[0]] + r == t[..|r| + 1];
      [t[0]] + r
  }

  /** Groups 2 to 4 matched by backtracking in `r`, the text after `index:` up to the first
      line break: the greediest choice takes the last ')' as the closing parenthesis, the
      last ':' at least two places before it, and the last '(' at least two places before
      that, which must not be the first character. */
  function Groups(index: string, r: string): (m: Option<TestLine>)
    ensures m.Some? ==> m.value.index == index
    ensures m.Some? ==> m.value.name != [] && m.value.file != [] && m.value.lineNumber != []
  {
    match LastIndexOf(r, ')')
    case None => None
    case Some(l) => if l < 1 then None else GroupsClosedAt(index, r, l)
  }

  /** The groups when the closing parenthesis is at `l`. */
  function GroupsClosedAt(index: string, r: string, l: nat): (m: Option<TestLine>)
    requires 1 <= l < |r|
    ensures m.Some? ==> m.value.index == index
    ensures m.Some? ==> m.value.name != [] && m.value.file != [] && m.value.lineNumber != []
  {
    match LastIndexOf(r[..l - 1], ':')
    case None => None
    case Some(b) => if b < 1 then None else GroupsSplitAt(index, r, b, l)
  }

  /** The groups when the closing parenthesis is at `l` and the ':' before the line at `b`. */
  function GroupsSplitAt(index: string, r: string, b: nat, l: nat): (m: Option<TestLine>)
    requires 1 <= b < l - 1 && l < |r|
    ensures m.Some? ==> m.value.index == index
    ensures m.Some? ==> m.value.name != [] && m.value.file != [] && m.value.lineNumber != []
  {
    match LastIndexOf(r[..b - 1], '(')
    case None => None
    case Some(a) => if a < 1 then None else Some(TestLine(index, r[..a], r[a + 1..b], r[b + 1..l]))
  }

  /** The groups are read off `index:r`: put back together they are a prefix of it. */
  lemma GroupsMatched(index: string, r: string)
    ensures Groups(index, r).Some? ==> MatchedText(Groups(index, r).value) <= index + ":" + r
  {
    if Groups(index, r).Some? {
      var l := LastIndexOf(r, ')').value;
      GroupsClose(index, r, l);
      var b := LastIndexOf(r[..l - 1], ':').value;
      GroupsColon(index, r, b, l);
      assert r[..l - 1][b] == r[b];
      SplitMatched(index, r, b, l);
    }
  }

  lemma SplitMatched(index: string, r: string, b: nat, l: nat)
    requires 1 <= b < l - 1 && l < |r| && r[b] == ':' && r[l] == ')'
    ensures GroupsSplitAt(index, r, b, l).Some? ==>
      MatchedText(GroupsSplitAt(index, r, b, l).value) <= index + ":" + r
  {
    if GroupsSplitAt(index, r, b, l).Some? {
      var a := LastIndexOf(r[..b - 1], '(').value;
      GroupsOpen(index, r, a, b, l);
      assert r[..b - 1][a] == r[a];
      Reassemble(r, a, b, l);
      PrefixOfConcat(index + ":", r, l + 1);
    }
  }

  /** Cutting `r` at a '(' at `a`, a ':' at `b` and a ')' at `l` and putting the pieces
      back with those three characters gives `r` up to `l`. */
  lemma Reassemble(r: string, a: nat, b: nat, l: nat)
    requires a < b < l < |r| && r[a] == '(' && r[b] == ':' && r[l] == ')'
    ensures Listed(r[..a], r[a + 1..b], r[b + 1..l]) == r[..l + 1]
  {
    assert r[..a] + "(" == r[..a + 1];
    assert r[..a + 1] + r[a + 1..b] == r[..b];
    assert r[..b] + ":" == r[..b + 1];
    assert r[..b + 1] + r[b + 1..l] == r[..l];
    assert r[..l] + ")" == r[..l + 1];
  }

  /** The match that starts at the beginning of `t`, if any: group 1 is the whole run of
      digits, since a shorter run is followed by a digit rather than ':'. */
  function MatchAt(t: string): (m: Option<TestLine>)
    ensures m.Some? ==> m.value.index != [] && AllDigits(m.value.index)
    ensures m.Some? ==> m.value.name != [] && m.value.file != [] && m.value.lineNumber != []
  {
    var d := LeadingDigits(t);
    if d == 0 || d >= |t| || t[d] != ':' then None
    else
      Groups(t[..d], UpToBreak(t[d + 1..]))
  }

  /** A match at the start of `t` is a prefix of `t`. */
  lemma MatchAtMatched(t: string)
    ensures MatchAt(t).Some? ==> MatchedText(MatchAt(t).value) <= t
  {
    if MatchAt(t).Some? {
      var d := LeadingDigits(t);
      var r := UpToBreak(t[d + 1..]);
      assert MatchAt(t) == Groups(t[..d], r);
      GroupsMatched(t[..d], r);
      PrefixAfterColon(t, d, r);
    }
  }

  /** `t[..d] + ":" + r` is a prefix of `t` when `t[d]` is ':' and `r` a prefix of what follows. */
  lemma PrefixAfterColon(t: string, d: nat, r: string)
    requires d < |t| && t[d] == ':' && r <= t[d + 1..]
    ensures t[..d] + ":" + r <= t
  {
    assert t[..d] + ":" == t[..d + 1];
    assert r == t[d + 1..d + 1 + |r|];
    assert t[..d + 1] + t[d + 1..d + 1 + |r|] == t[..d + 1 + |r|];
  }

  /** The match that starts at each position of `line`. */
  function Starts(line: string): (ms: seq<Option<TestLine>>)
    ensures |ms| == |line| && forall q :: 0 <= q < |line| ==> ms[q] == MatchAt(line[q..])
  {
    seq(|line|, q requires 0 <= q < |line| => MatchAt(line[q..]))
  }

  /** `regex_search`: the groups of the match at the leftmost position that has one, or
      `None` when no position has one. */
  function ParseLine(line: string): Option<TestLine>
  {
    FirstSome(Starts(line), 0)
  }

  /** No match starts before position `p`. */
  predicate NoMatchBefore(line: string, p: nat)
  {
    forall q :: 0 <= q < p && q <= |line| ==> MatchAt(line[q..]).None?
  }

  /** `regex_search` finds nothing exactly when no position starts a match. */
  lemma ParseLineNone(line: string)
    ensures ParseLine(line).None? <==> forall q :: 0 <= q < |line| ==> MatchAt(line[q..]).None?
  {
    FirstSomeNone(Starts(line), 0);
  }

  /** What `regex_search` finds is the match at a position before which none starts. */
  lemma ParseLineLeftmost(line: string)
    requires ParseLine(line).Some?
    ensures exists p :: 0 <= p < |line| && MatchAt(line[p..]) == ParseLine(line) && NoMatchBefore(line, p)
  {
    var ms := Starts(line);
    FirstSomeLeftmost(ms, 0);
    var p :| 0 <= p < |ms| && ms[p] == ParseLine(line) && forall i :: 0 <= i < p ==> ms[i].None?;
    assert NoMatchBefore(line, p);
  }

  // ---------------------------------------------------------------------------
  // Parsing a line of the listing recovers what was listed

  /** The last `c` of `a + [c] + b` is the one after `a` when `b` has none. */
  lemma {:induction false} LastIndexOfAt(a: string, c: char, b: string)
    requires c !in b
    ensures LastIndexOf(a + [c] + b, c) == Some(|a|)
    decreases |b|
  {
    var s := a + [c] + b;
    if b != [] {
      assert s[..|s| - 1] == a + [c] + b[..|b| - 1];
      assert b[|b| - 1] in b;
      LastIndexOfAt(a, c, b[..|b| - 1]);
    }
  }

  lemma {:induction false} LeadingDigitsOf(a: string, b: string)
    requires AllDigits(a) && (b != [] ==> !IsDigit(b[0]))
    ensures LeadingDigits(a + b) == |a|
  {
    if a == [] {
      assert a + b == b;
    } else {
      assert (a + b)[1..] == a[1..] + b;
      LeadingDigitsOf(a[1..], b);
    }
  }

  lemma UpToBreakOf(s: string)
    requires NoBreak(s)
    ensures UpToBreak(s) == s
  {
  }

  /** `Groups` for given positions of the three delimiters. */
  lemma GroupsAt(index: string, r: string, a: nat, b: nat, l: nat)
    requires 1 <= a && 1 <= b && 1 <= l < |r|
    requires LastIndexOf(r, ')') == Some(l)
    requires LastIndexOf(r[..l - 1], ':') == Some(b)
    requires LastIndexOf(r[..b - 1], '(') == Some(a)
    ensures Groups(index, r) == Some(TestLine(index, r[..a], r[a + 1..b], r[b + 1..l]))
  {
    GroupsClose(index, r, l);
    GroupsColon(index, r, b, l);
    GroupsOpen(index, r, a, b, l);
  }

  lemma GroupsClose(index: string, r: string, l: nat)
    requires 1 <= l < |r| && LastIndexOf(r, ')') == Some(l)
    ensures Groups(index, r) == GroupsClosedAt(index, r, l)
  {
  }

  lemma GroupsColon(index: string, r: string, b: nat, l: nat)
    requires 1 <= b && 1 <= l < |r| && LastIndexOf(r[..l - 1], ':') == Some(b)
    ensures b < l - 1
    ensures GroupsClosedAt(index, r, l) == GroupsSplitAt(index, r, b, l)
  {
  }

  lemma GroupsOpen(index: string, r: string, a: nat, b: nat, l: nat)
    requires 1 <= a && 1 <= b < l - 1 && l < |r| && LastIndexOf(r[..b - 1], '(') == Some(a)
    ensures GroupsSplitAt(index, r, b, l) == Some(TestLine(index, r[..a], r[a + 1..b], r[b + 1..l]))
  {
  }

  /** A character missing from `s` is missing from every prefix of it. */
  lemma NotInPrefix(s: string, c: char, n: nat)
    requires c !in s && n <= |s|
    ensures c !in s[..n]
  {
  }

  /** Cutting `x + y` inside `y`. */
  lemma PrefixOfConcat(x: string, y: string, n: nat)
    requires n <= |y|
    ensures (x + y)[..|x| + n] == x + y[..n]
  {
  }

  /** Where the three delimiters of `name(file:line)` sit: '(' at `a`, ':' at `b` and
      ')' at `l`, the last position. */
  predicate Delimiters(name: string, file: string, ln: string, a: nat, b: nat, l: nat)
  {
    a == |name| && b == |name| + 1 + |file| && l == |name| + |file| + |ln| + 2
  }

  lemma ListedParts(name: string, file: string, ln: string, a: nat, b: nat, l: nat)
    requires Delimiters(name, file, ln, a, b, l)
    ensures var r := Listed(name, file, ln);
      && |r| == l + 1
      && r[..a] == name && r[a + 1..b] == file && r[b + 1..l] == ln
  {
  }

  lemma ListedClose(name: string, file: string, ln: string, a: nat, b: nat, l: nat)
    requires Delimiters(name, file, ln, a, b, l)
    ensures LastIndexOf(Listed(name, file, ln), ')') == Some(l)
  {
    var r := Listed(name, file, ln);
    assert r[..|r| - 1] + [')'] + [] == r;
    LastIndexOfAt(r[..|r| - 1], ')', []);
  }

  lemma ListedColon(name: string, file: string, ln: string, a: nat, b: nat, l: nat)
    requires Delimiters(name, file, ln, a, b, l)
    requires ln != [] && ':' !in ln
    ensures LastIndexOf(Listed(name, file, ln)[..l - 1], ':') == Some(b)
  {
    var r := Listed(name, file, ln);
    var head := name + "(" + file;
    var tail := ":" + ln + ")";
    assert r == head + tail;
    assert |head| + |ln| == l - 1;
    NotInPrefix(ln, ':', |ln| - 1);
    PrefixOfConcat(head, tail, |ln|);
    assert r[..l - 1] == head + tail[..|ln|];
    assert tail[..|ln|] == [':'] + ln[..|ln| - 1];
    assert r[..l - 1] == head + [':'] + ln[..|ln| - 1];
    assert |head| == b;
    LastIndexOfAt(head, ':', ln[..|ln| - 1]);
  }

  lemma ListedOpen(name: string, file: string, ln: string, a: nat, b: nat, l: nat)
    requires Delimiters(name, file, ln, a, b, l)
    requires file != [] && '(' !in file
    ensures LastIndexOf(Listed(name, file, ln)[..b - 1], '(') == Some(a)
  {
    var r := Listed(name, file, ln);
    var head := "(" + file;
    var tail := ":" + ln + ")";
    assert r == name + (head + tail);
    PrefixOfConcat(name, head + tail, |file|);
    NotInPrefix(file, '(', |file| - 1);
    assert (head + tail)[..|file|] == ['('] + file[..|file| - 1];
    assert r[..b - 1] == name + ['('] + file[..|file| - 1];
    LastIndexOfAt(name, '(', file[..|file| - 1]);
  }

  /** Greedy matching splits `name(file:line)` back into its parts when `file` holds no
      '(' and `line` no ':'. */
  lemma GroupsOf(index: string, name: string, file: string, ln: string)
    requires name != [] && file != [] && ln != []
    requires '(' !in file && ':' !in ln
    ensures Groups(index, Listed(name, file, ln)) == Some(TestLine(index, name, file, ln))
  {
    var a, b, l := |name|, |name| + 1 + |file|, |name| + |file| + |ln| + 2;
    ListedParts(name, file, ln, a, b, l);
    ListedClose(name, file, ln, a, b, l);
    ListedColon(name, file, ln, a, b, l);
    ListedOpen(name, file, ln, a, b, l);
    GroupsAt(index, Listed(name, file, ln), a, b, l);
  }

  /** A line that starts with digits and ':' is matched right there. */
  lemma MatchAtOf(digits: string, rest: string)
    requires digits != [] && AllDigits(digits) && NoBreak(rest)
    ensures MatchAt(digits + ":" + rest) == Groups(digits, rest)
  {
    var t := digits + ":" + rest;
    LeadingDigitsOf(digits, ":" + rest);
    assert t == digits + (":" + rest);
    assert t[..|digits|] == digits;
    assert t[|digits| + 1..] == rest;
    UpToBreakOf(rest);
  }

  /** The search skips positions that have no match. */
  lemma SearchFindsAt(line: string, p: nat)
    requires p < |line| && MatchAt(line[p..]).Some?
    requires NoMatchBefore(line, p)
    ensures ParseLine(line) == MatchAt(line[p..])
  {
    FirstSomeFinds(Starts(line), 0, p);
  }

  /** A listed line is the padding, the index, ':' and `name(file:line)`. */
  lemma ListLineForm(i: nat, w: nat, e: Entry, file: string, ln: string)
    requires e.location == file + ":" + ln
    ensures var digits := NatStr(i);
      ListLine(i, w, e) == Spaces(if |digits| < w then w - |digits| else 0) + (digits + ":" + Listed(e.name, file, ln))
  {
  }

  lemma ListedNoBreak(name: string, file: string, ln: string)
    requires NoBreak(name) && NoBreak(file) && NoBreak(ln)
    ensures NoBreak(Listed(name, file, ln))
  {
  }

  /** Leading spaces are skipped: no match starts on a space. */
  lemma ParseAfterSpaces(pad: nat, after: string)
    requires MatchAt(after).Some?
    ensures ParseLine(Spaces(pad) + after) == MatchAt(after)
  {
    var line := Spaces(pad) + after;
    assert line[pad..] == after;
    forall q | 0 <= q < pad ensures MatchAt(line[q..]).None? {
      assert line[q..][0] == ' ';
    }
    SearchFindsAt(line, pad);
  }

  /** One line of `list_registered_test_cases` parses back into the index it was listed
      with and the name, file and line of its test case, whatever the padding of the
      index: the location `file:line` needs a non-empty `file` without '(' and a
      non-empty `line` without ':', and none of the three parts may hold a line break. */
  lemma ParseListLine(i: nat, w: nat, e: Entry, file: string, ln: string)
    requires e.location == file + ":" + ln
    requires e.name != [] && file != [] && ln != []
    requires '(' !in file && ':' !in ln
    requires NoBreak(e.name) && NoBreak(file) && NoBreak(ln)
    ensures ParseLine(ListLine(i, w, e)) == Some(TestLine(NatStr(i), e.name, file, ln))
  {
    var digits := NatStr(i);
    var rest := Listed(e.name, file, ln);
    var pad := if |digits| < w then w - |digits| else 0;
    var after := digits + ":" + rest;
    var t := TestLine(digits, e.name, file, ln);
    assert ListLine(i, w, e) == Spaces(pad) + after by {
      ListLineForm(i, w, e, file, ln);
    }
    assert MatchAt(after) == Some(t) by {
      ListedNoBreak(e.name, file, ln);
      MatchAtOf(digits, rest);
      GroupsOf(digits, e.name, file, ln);
    }
    ParseAfterSpaces(pad, after);
  }

  // ---------------------------------------------------------------------------
  // The generated tests file

  /** The two lines written for one parsed test case: `add_test` with the listed index,
      and `set_tests_properties` with `file;line`, the file's backslashes made slashes. */
  function TestLines(t: TestLine, target: string): seq<string>
  {
    [AddTestLine(t.name, target, t.index),
     SetTestPropertiesLine(t.name, ReplaceChar(t.file, '\\', '/') + ";" + t.lineNumber)]
  }

  /** For a location `file:line` whose `line` holds neither ':' nor a backslash, the tool
      writes exactly the lines `discover_test_case` writes for the same test case, when it
      names the target (`target`, its `argv[1]`) by the same string `discover_test_case`
      uses (`exePath`, the absolute generic path of `argv[0]`), and only then. */
  lemma SameLinesAsInProcess(e: Entry, target: string, exePath: string, k: nat, file: string, ln: string)
    requires e.location == file + ":" + ln && ':' !in ln && '\\' !in ln
    ensures ':' in e.location
    ensures TestLines(TestLine(NatStr(k), e.name, file, ln), target) == EntryLines(e, target, k)
    ensures TestLines(TestLine(NatStr(k), e.name, file, ln), target) == EntryLines(e, exePath, k)
            <==> target == exePath
  {
    BacktraceOfLocation(file, ln);
    ReplaceCharAbsent(ln, '\\', '/');
    if TestLines(TestLine(NatStr(k), e.name, file, ln), target) == EntryLines(e, exePath, k) {
      AddTestLineExe(e.name, target, exePath, NatStr(k));
    }
  }

  /** What `regex_search` makes of each selected line. */
  function Parsed(sel: seq<string>): (ps: seq<Option<TestLine>>)
    ensures |ps| == |sel| && forall k :: 0 <= k < |sel| ==> ps[k] == ParseLine(sel[k])
  {
    seq(|sel|, k requires 0 <= k < |sel| => ParseLine(sel[k]))
  }

  function Shift(o: Option<nat>, d: nat): Option<nat>
  {
    if o.None? then None else Some(o.value + d)
  }

  /** The lines the loop of `main` writes for the parsed lines: two per line in order, and
      on the first line that did not parse, the lines so far and that line's position,
      where its `runtime_error` ends the loop. */
  function EmitParsed(ps: seq<Option<TestLine>>, target: string): (r: (seq<string>, Option<nat>))
    ensures r.1.Some? ==> r.1.value < |ps| && ps[r.1.value].None?
    ensures r.1.Some? ==> forall k :: 0 <= k < r.1.value ==> ps[k].Some?
    ensures r.1.None? <==> forall k :: 0 <= k < |ps| ==> ps[k].Some?
    ensures r.1.None? ==> |r.0| == 2 * |ps|
  {
    if ps == [] then ([], None)
    else match ps[0]
      case None => ([], Some(0))
      case Some(t) =>
        var rest := EmitParsed(ps[1..], target);
        assert forall k :: 1 <= k < |ps| ==> ps[k] == ps[1..][k - 1];
        (TestLines(t, target) + rest.0, Shift(rest.1, 1))
  }

  /** Parsing one more line appends its two lines. */
  lemma {:induction false} EmitParsedSnoc(ps: seq<Option<TestLine>>, t: TestLine, target: string)
    requires EmitParsed(ps, target).1.None?
    ensures EmitParsed(ps + [Some(t)], target) == (EmitParsed(ps, target).0 + TestLines(t, target), None)
  {
    if ps == [] {
      var one := [Some(t)];
      assert ps + [Some(t)] == one;
      assert one[1..] == [];
      assert EmitParsed(one, target) == (TestLines(t, target) + EmitParsed([], target).0, Shift(EmitParsed([], target).1, 1));
      assert TestLines(t, target) + [] == TestLines(t, target);
      assert EmitParsed(ps, target) == ([], None);
      assert Shift(None, 1) == None;
      assert EmitParsed(one, target) == (TestLines(t, target), None);
      assert EmitParsed(ps, target).0 + TestLines(t, target) == TestLines(t, target);
      assert EmitParsed(ps + [Some(t)], target) == (TestLines(t, target), None);
    } else {
      var t0 := ps[0].value;
      var rest := EmitParsed(ps[1..], target);
      assert EmitParsed(ps, target) == (TestLines(t0, target) + rest.0, Shift(rest.1, 1));
      assert (ps + [Some(t)])[0] == ps[0];
      assert (ps + [Some(t)])[1..] == ps[1..] + [Some(t)];
      EmitParsedSnoc(ps[1..], t, target);
      assert TestLines(t0, target) + (rest.0 + TestLines(t, target)) == TestLines(t0, target) + rest.0 + TestLines(t, target);
    }
  }

  /** The first line that does not parse stops the loop with the lines of those before it. */
  lemma {:induction false} EmitParsedStop(ps: seq<Option<TestLine>>, target: string, k: nat)
    requires k < |ps| && ps[k].None? && forall j :: 0 <= j < k ==> ps[j].Some?
    ensures EmitParsed(ps, target) == (EmitParsed(ps[..k], target).0, Some(k))
  {
    if k > 0 {
      assert ps[1..][k - 1] == ps[k];
      EmitParsedStop(ps[1..], target, k - 1);
      assert ps[1..][..k - 1] == ps[..k][1..];
      assert ps[..k][0] == ps[0];
    }
  }

  /** The lines written for the selected lines `sel`, and the first line that does not
      parse, if any. */
  function EmitLines(sel: seq<string>, target: string): (r: (seq<string>, Option<string>))
    ensures r.1.Some? ==> r.1.value in sel && ParseLine(r.1.value).None?
    ensures r.1.None? <==> forall k :: 0 <= k < |sel| ==> ParseLine(sel[k]).Some?
    ensures r.1.None? ==> |r.0| == 2 * |sel|
  {
    var (lines, failed) := EmitParsed(Parsed(sel), target);
    (lines, if failed.None? then None else Some(sel[failed.value]))
  }

  /** `add_test("<filename>_NO_TEST_CASE" "<guid>")`, written when no test case was found. */
  function Placeholder(filename: string, guid: string): string
  {
    "add_test(\"" + filename + "_NO_TEST_CASE\" \"" + guid + "\")"
  }

  /** The content of `<stem>_ctest_tests_<guid>.cmake` as lines, and the line that failed to
      parse, if any: the placeholder exactly when no line was selected. */
  function TestsFile(sel: seq<string>, target: string, filename: string, guid: string): (r: (seq<string>, Option<string>))
    ensures sel == [] ==> r == ([Placeholder(filename, guid)], None)
    ensures sel != [] ==> r == EmitLines(sel, target)
  {
    if sel == [] then ([Placeholder(filename, guid)], None) else EmitLines(sel, target)
  }

  /** The loop of `main` over the selected lines: the lines written and the line that
      failed to parse, if any, with the placeholder when no test case was found. */
  method WriteTests(sel: seq<string>, target: string, filename: string, guid: string)
    returns (lines: seq<string>, failed: Option<string>)
    ensures (lines, failed) == TestsFile(sel, target, filename, guid)
  {
    var ps := Parsed(sel);
    var stop, foundTestCase;
    lines, stop, foundTestCase := WriteParsed(ps, target);
    if stop.Some? {
      return lines, Some(sel[stop.value]);
    }
    failed := None;
    if !foundTestCase {
      lines := [Placeholder(filename, guid)];
    }
  }

  /** The body of that loop, over what `regex_search` made of each line: two lines per
      parsed line, stopping at the first line that did not parse, with the
      `found_test_case` flag set once a test case was written. */
  method WriteParsed(ps: seq<Option<TestLine>>, target: string)
    returns (lines: seq<string>, stop: Option<nat>, foundTestCase: bool)
    ensures (lines, stop) == EmitParsed(ps, target)
    ensures foundTestCase <==> (stop.None? && ps != []) || (stop.Some? && stop.value > 0)
  {
    lines := [];
    foundTestCase := false;
    var k := 0;
    while k < |ps|
      invariant 0 <= k <= |ps|
      invariant foundTestCase <==> k > 0
      invariant forall j :: 0 <= j < k ==> ps[j].Some?
      invariant EmitParsed(ps[..k], target) == (lines, None)
    {
      var parsed := ps[k];
      if parsed.None? {
        // `throw runtime_error("Failed to parse the content: ...")`
        EmitParsedStop(ps, target, k);
        return lines, Some(k), foundTestCase;
      }
      EmitParsedSnoc(ps[..k], parsed.value, target);
      PrefixSnoc(ps, k);
      lines := lines + TestLines(parsed.value, target);
      foundTestCase := true;
      k := k + 1;
    }
    assert ps[..k] == ps;
    stop := None;
  }

  // ---------------------------------------------------------------------------
  // Updating CTestTestfile.cmake

  /** `line.find(guid) == npos` exactly when `line` does not contain `guid`. */
  lemma FindFromContains(s: string, sub: string)
    ensures FindFrom(s, sub, 0).None? <==> !Contains(s, sub)
  {
    var r := FindFrom(s, sub, 0);
    if r.Some? {
      assert OccursAt(s, sub, r.value);
    }
  }

  /** The lines `update_ctest_config_file` copies: those that do not contain `guid`, in order. */
  function KeptLines(ls: seq<string>, guid: string): (r: seq<string>)
    ensures forall l :: l in r <==> l in ls && !Contains(l, guid)
    ensures |r| <= |ls|
  {
    if ls == [] then []
    else
      var init := KeptLines(ls[..|ls| - 1], guid);
      var l := ls[|ls| - 1];
      assert ls == ls[..|ls| - 1] + [l];
      if Contains(l, guid) then init else init + [l]
  }

  /** Some line of `ls` contains `guid`. */
  predicate HasGuidLine(ls: seq<string>, guid: string)
  {
    exists k :: 0 <= k < |ls| && Contains(ls[k], guid)
  }

  /** `include("<path>")`. */
  function IncludeLine(path: string): string
  {
    "include(\"" + path + "\")"
  }

  /** The new content of the configuration file: the kept lines, each ended by a newline,
      then the `include` line only if some line contained `guid`. */
  function UpdatedConfig(content: string, guid: string, testsPath: string): string
  {
    var ls := GetLines(content);
    JoinLines(KeptLines(ls, guid)) + if HasGuidLine(ls, guid) then IncludeLine(testsPath) + "\n" else ""
  }

  /** Read back line by line, the new content is the lines without `guid` in their order,
      followed by the `include` line exactly when some line held `guid`. */
  lemma UpdatedConfigLines(content: string, guid: string, testsPath: string)
    requires '\n' !in testsPath
    ensures GetLines(UpdatedConfig(content, guid, testsPath))
      == KeptLines(GetLines(content), guid) + if HasGuidLine(GetLines(content), guid) then [IncludeLine(testsPath)] else []
  {
    var ls := GetLines(content);
    var kept := KeptLines(ls, guid);
    assert forall i :: 0 <= i < |kept| ==> '\n' !in kept[i] by {
      forall i | 0 <= i < |kept| ensures '\n' !in kept[i] {
        assert kept[i] in kept;
      }
    }
    if HasGuidLine(ls, guid) {
      var inc := IncludeLine(testsPath);
      assert '\n' !in inc;
      JoinLinesSnoc(kept, inc);
      assert UpdatedConfig(content, guid, testsPath) == JoinLines(kept + [inc]);
      GetLinesJoin(kept + [inc]);
    } else {
      assert UpdatedConfig(content, guid, testsPath) == JoinLines(kept);
      GetLinesJoin(kept);
      assert kept + [] == kept;
    }
  }

  /** Lines without `guid` are all kept. */
  lemma {:induction false} KeptAll(ls: seq<string>, guid: string)
    requires !HasGuidLine(ls, guid)
    ensures KeptLines(ls, guid) == ls
  {
    if ls != [] {
      var init := ls[..|ls| - 1];
      assert !HasGuidLine(init, guid) by {
        forall k | 0 <= k < |init| ensures !Contains(init[k], guid) {
          assert init[k] == ls[k];
        }
      }
      KeptAll(init, guid);
      assert ls == ls[..|ls| - 1] + [ls[|ls| - 1]];
    }
  }

  /** Once the path of the generated file holds `guid`, updating the configuration file a
      second time leaves it as the first update left it. */
  lemma UpdateConfigIdempotent(content: string, guid: string, testsPath: string)
    requires Contains(testsPath, guid) && '\n' !in testsPath
    ensures UpdatedConfig(UpdatedConfig(content, guid, testsPath), guid, testsPath) == UpdatedConfig(content, guid, testsPath)
  {
    var ls := GetLines(content);
    var kept := KeptLines(ls, guid);
    var once := UpdatedConfig(content, guid, testsPath);
    UpdatedConfigLines(content, guid, testsPath);
    var inc := IncludeLine(testsPath);
    assert forall i :: 0 <= i < |kept| ==> !Contains(kept[i], guid) by {
      forall i | 0 <= i < |kept| ensures !Contains(kept[i], guid) {
        assert kept[i] in kept;
      }
    }
    assert !HasGuidLine(kept, guid);
    KeptAll(kept, guid);
    if HasGuidLine(ls, guid) {
      assert GetLines(once) == kept + [inc];
      ContainsIn("include(\"", testsPath, "\")", guid);
      assert (kept + [inc])[|kept|] == inc;
      assert HasGuidLine(kept + [inc], guid);
      assert (kept + [inc])[..|kept|] == kept;
      assert KeptLines(kept + [inc], guid) == kept;
    } else {
      assert GetLines(once) == kept;
    }
  }

  /** A text that contains `sub` still contains it with text around it. */
  lemma ContainsIn(a: string, s: string, b: string, sub: string)
    requires Contains(s, sub)
    ensures Contains(a + s + b, sub)
  {
    var i :| 0 <= i <= |s| && OccursAt(s, sub, i);
    var t := a + s + b;
    assert t[|a| + i..|a| + i + |sub|] == s[i..i + |sub|];
    assert OccursAt(t, sub, |a| + i);
  }

  /** Keeping lines from a first line on: the first line is kept unless it holds `guid`. */
  lemma {:induction false} KeptLinesCons(l: string, ls: seq<string>, guid: string)
    ensures KeptLines([l] + ls, guid) == (if Contains(l, guid) then [] else [l]) + KeptLines(ls, guid)
    decreases |ls|
  {
    if ls != [] {
      var init := ls[..|ls| - 1];
      var last := ls[|ls| - 1];
      assert ([l] + ls)[..|ls|] == [l] + init;
      assert ([l] + ls)[|ls|] == last;
      KeptLinesCons(l, init, guid);
    } else {
      assert ([l] + ls)[..0] == [];
    }
  }

  /** On text made of whole lines with no carriage return, the `regex_replace` of
      `discover_test_case` removes exactly the lines `update_ctest_config_file` drops:
      those that contain `guid`. */
  lemma {:induction false} RemoveGuidLinesJoin(ls: seq<string>, guid: string)
    requires forall k :: 0 <= k < |ls| ==> NoBreak(ls[k])
    ensures RemoveGuidLines(JoinLines(ls), guid) == JoinLines(KeptLines(ls, guid))
  {
    if ls == [] {
      assert IndexOf("", '\n') == None;
    } else {
      var l := ls[0];
      RemoveGuidLinesStep(l, JoinLines(ls[1..]), guid);
      RemoveGuidLinesJoin(ls[1..], guid);
      KeptLinesCons(l, ls[1..], guid);
      assert ls == [l] + ls[1..];
      var head := if Contains(l, guid) then [] else [l];
      JoinLinesAppend(head, KeptLines(ls[1..], guid));
      assert JoinLines(head) == if Contains(l, guid) then "" else l + "\n";
    }
  }

  /** The first line of the text is removed when it holds `guid`, and kept otherwise. */
  lemma RemoveGuidLinesStep(l: string, t: string, guid: string)
    requires NoBreak(l)
    ensures RemoveGuidLines(l + "\n" + t, guid) == (if Contains(l, guid) then "" else l + "\n") + RemoveGuidLines(t, guid)
  {
    var s := l + "\n" + t;
    assert s == l + ("\n" + t);
    IndexOfPrefix(l, "\n" + t, '\n');
    assert s[..|l|] == l;
    assert s[|l| + 1..] == t;
    assert LastIndexOf(l, '\r') == None;
    assert l[0..] == l;
  }

  /** One more line read: it is kept unless it holds `guid`, and then it is found. */
  lemma KeptStep(ls: seq<string>, guid: string, k: nat)
    requires k < |ls|
    ensures !Contains(ls[k], guid) ==> KeptLines(ls[..k + 1], guid) == KeptLines(ls[..k], guid) + [ls[k]]
    ensures Contains(ls[k], guid) ==> KeptLines(ls[..k + 1], guid) == KeptLines(ls[..k], guid)
    ensures HasGuidLine(ls[..k + 1], guid) <==> HasGuidLine(ls[..k], guid) || Contains(ls[k], guid)
  {
    var next := ls[..k + 1];
    assert next[..k] == ls[..k];
    assert next[k] == ls[k];
    if HasGuidLine(ls[..k], guid) {
      var j :| 0 <= j < k && Contains(ls[..k][j], guid);
      assert next[j] == ls[..k][j];
    }
    if HasGuidLine(next, guid) && !Contains(ls[k], guid) {
      var j :| 0 <= j < k + 1 && Contains(next[j], guid);
      assert ls[..k][j] == next[j];
    }
  }

  /** `update_ctest_config_file`: the `getline` loop with its `found_guid` flag. */
  method UpdateConfigFile(content: string, guid: string, testsPath: string) returns (updated: string)
    ensures updated == UpdatedConfig(content, guid, testsPath)
  {
    var ls := GetLines(content);
    updated := "";
    var foundGuid := false;
    ghost var kept: seq<string> := [];
    var k := 0;
    while k < |ls|
      invariant 0 <= k <= |ls|
      invariant kept == KeptLines(ls[..k], guid)
      invariant updated == JoinLines(kept)
      invariant foundGuid <==> HasGuidLine(ls[..k], guid)
    {
      var line := ls[k];
      var at := FindFrom(line, guid, 0);
      FindFromContains(line, guid);
      KeptStep(ls, guid, k);
      if at.None? {
        JoinLinesSnoc(kept, line);
        updated := updated + line + "\n";
        kept := kept + [line];
      } else {
        foundGuid := true;
      }
      k := k + 1;
    }
    assert ls[..k] == ls;
    if foundGuid {
      updated := updated + IncludeLine(testsPath) + "\n";
    }
  }

  // ---------------------------------------------------------------------------
  // main

  /** `<stem>_ctest_tests_<guid>.cmake`. */
  function TestsFileName(stem: string, guid: string): string
  {
    stem + "_ctest_tests_" + guid + ".cmake"
  }

  /** The absolute path of the generated file, in the target's directory. */
  function TestsPath(directory: string, stem: string, guid: string): string
  {
    directory + "/" + TestsFileName(stem, guid)
  }

  /** The generated file's path holds `guid`, so its `include` line is itself replaced by
      the next update. */
  lemma TestsPathHoldsGuid(directory: string, stem: string, guid: string)
    ensures Contains(TestsPath(directory, stem, guid), guid)
  {
    ContainsMiddle(directory + "/" + stem + "_ctest_tests_", guid, ".cmake");
    assert TestsPath(directory, stem, guid) == directory + "/" + stem + "_ctest_tests_" + guid + ".cmake";
  }

  lemma TestsPathNoBreak(directory: string, stem: string, guid: string)
    requires '\n' !in directory && '\n' !in stem && '\n' !in guid
    ensures '\n' !in TestsPath(directory, stem, guid)
  {
    var a := directory + "/";
    var b := a + stem;
    var c := b + "_ctest_tests_";
    var d := c + guid;
    assert '\n' !in a;
    assert '\n' !in b;
    assert '\n' !in c;
    assert '\n' !in d;
    assert TestsPath(directory, stem, guid) == d + ".cmake";
  }

  /** The exception `main` catches and reports. */
  datatype ToolError =
    | ListingFailed      // changing into the target's directory, running it or reading its output
    | ParseFailed(line: string)
    | TestsUnwritable
    | ConfigUnavailable  // no CTestTestfile.cmake in the directory or above it, or it cannot be read
    | ConfigUnwritable

  /** What the tool finds around it: the parts of the target's path, the target's listing
      output, and the files it reads and writes. */
  datatype ToolHost = ToolHost(
    stem: string, filename: string, directory: string,
    output: Option<string>, testsWritable: bool,
    config: Option<string>, configWritable: bool)

  /** How a run ends: an `assert` on the arguments fails, or `main` returns its exit code,
      with the lines of the generated file if it was created, the new configuration file
      if it was rewritten, and the exception it caught, if any. */
  datatype ToolRun =
    | ArgumentsRejected
    | Finished(exitCode: int, testsFile: Option<seq<string>>, config: Option<string>, error: Option<ToolError>)

  /** `main(argc, argv)` of `minitest_discover_tests`, `argv` holding `argc` arguments. */
  function ToolMain(argv: seq<string>, guid: string, host: ToolHost): (r: ToolRun)
    ensures r.ArgumentsRejected? <==> !(|argv| == 3 && argv[2] == guid)
    ensures r.Finished? ==> r.exitCode == EXIT_SUCCESS
    ensures r.Finished? ==> (r.config.Some? <==> r.error.None?)
    ensures r.Finished? && r.config.Some? ==> r.testsFile.Some? && host.output.Some? && host.config.Some?
    ensures r.Finished? && r.testsFile.Some? ==> host.testsWritable && host.output.Some?
  {
    if |argv| != 3 || argv[2] != guid then ArgumentsRejected
    else if host.output.None? then Finished(EXIT_SUCCESS, None, None, Some(ListingFailed))
    else
      var sel := SelectLines(SplitLines(host.output.value), guid);
      var (lines, failed) := TestsFile(sel, argv[1], host.filename, guid);
      var written := if host.testsWritable then Some(lines) else None;
      if failed.Some? then Finished(EXIT_SUCCESS, written, None, Some(ParseFailed(failed.value)))
      else if !host.testsWritable then Finished(EXIT_SUCCESS, None, None, Some(TestsUnwritable))
      else if host.config.None? then Finished(EXIT_SUCCESS, written, None, Some(ConfigUnavailable))
      else if !host.configWritable then Finished(EXIT_SUCCESS, written, None, Some(ConfigUnwritable))
      else
        var path := TestsPath(host.directory, host.stem, guid);
        Finished(EXIT_SUCCESS, written, Some(UpdatedConfig(host.config.value, guid, path)), None)
  }

  const EXIT_SUCCESS: int := 0

  /** `main`, with the loops of the generated file and of the configuration update. */
  method RunTool(argv: seq<string>, guid: string, host: ToolHost) returns (r: ToolRun)
    ensures r == ToolMain(argv, guid, host)
  {
    if |argv| != 3 || argv[2] != guid {
      return ArgumentsRejected;
    }
    if host.output.None? {
      return Finished(EXIT_SUCCESS, None, None, Some(ListingFailed));
    }
    var sel := SelectLines(SplitLines(host.output.value), guid);
    var lines, failed := WriteTests(sel, argv[1], host.filename, guid);
    var written := if host.testsWritable then Some(lines) else None;
    if failed.Some? {
      return Finished(EXIT_SUCCESS, written, None, Some(ParseFailed(failed.value)));
    }
    if !host.testsWritable {
      return Finished(EXIT_SUCCESS, None, None, Some(TestsUnwritable));
    }
    if host.config.None? {
      return Finished(EXIT_SUCCESS, written, None, Some(ConfigUnavailable));
    }
    if !host.configWritable {
      return Finished(EXIT_SUCCESS, written, None, Some(ConfigUnwritable));
    }
    var updated := UpdateConfigFile(host.config.value, guid, TestsPath(host.directory, host.stem, guid));
    r := Finished(EXIT_SUCCESS, written, Some(updated), None);
  }

  /** Where `main` rewrites the configuration file, it writes the update of what it read. */
  lemma ToolMainConfig(argv: seq<string>, guid: string, host: ToolHost)
    requires ToolMain(argv, guid, host).Finished? && ToolMain(argv, guid, host).config.Some?
    ensures host.config.Some? && host.output.Some? && host.testsWritable && host.configWritable
    ensures ToolMain(argv, guid, host).config.value
         == UpdatedConfig(host.config.value, guid, TestsPath(host.directory, host.stem, guid))
  {
  }

  /** Whether `main` reaches the configuration update depends on the configuration file
      only through its being there. */
  lemma ToolMainReplaced(argv: seq<string>, guid: string, host: ToolHost, config: string)
    requires ToolMain(argv, guid, host).Finished? && ToolMain(argv, guid, host).config.Some?
    ensures ToolMain(argv, guid, host.(config := Some(config))).Finished?
    ensures ToolMain(argv, guid, host.(config := Some(config))).config.Some?
  {
  }

  /** Running the tool again on the configuration file it wrote, with the same target and
      the same listing, leaves that file as it is. */
  lemma RerunKeepsConfig(argv: seq<string>, guid: string, host: ToolHost)
    requires ToolMain(argv, guid, host).Finished? && ToolMain(argv, guid, host).config.Some?
    requires '\n' !in host.directory && '\n' !in host.stem && '\n' !in guid
    ensures var c := ToolMain(argv, guid, host).config.value;
      ToolMain(argv, guid, host.(config := Some(c))).config == Some(c)
  {
    var c := ToolMain(argv, guid, host).config.value;
    var host2 := host.(config := Some(c));
    var path := TestsPath(host.directory, host.stem, guid);
    ToolMainConfig(argv, guid, host);
    assert c == UpdatedConfig(host.config.value, guid, path);
    ToolMainReplaced(argv, guid, host, c);
    ToolMainConfig(argv, guid, host2);
    assert TestsPath(host2.directory, host2.stem, guid) == path;
    assert ToolMain(argv, guid, host2).config.value == UpdatedConfig(c, guid, path);
    TestsPathHoldsGuid(host.directory, host.stem, guid);
    TestsPathNoBreak(host.directory, host.stem, guid);
    UpdateConfigIdempotent(host.config.value, guid, path);
  }

  // ---------------------------------------------------------------------------
  // The two discovery paths agree

  /** Every test case of `es` was registered by TEST_CASE at `files[k]`, line `lines[k]`,
      with a name and a file the listing format carries: both non-empty and on one line,
      the file without '('. */
  predicate Listable(es: seq<Entry>, files: seq<string>, lines: seq<nat>)
  {
    && |files| == |es| && |lines| == |es|
    && forall k :: 0 <= k < |es| ==>
      && es[k].location == TestCaseLocation(files[k], lines[k])
      && es[k].name != [] && NoBreak(es[k].name)
      && files[k] != [] && '(' !in files[k] && NoBreak(files[k])
  }

  /** A decimal number holds none of the characters the listing format and the
      backtrace treat specially. */
  lemma NatStrPlain(n: nat)
    ensures NatStr(n) != [] && NoBreak(NatStr(n))
    ensures ':' !in NatStr(n) && '\\' !in NatStr(n) && '(' !in NatStr(n)
  {
    var s := NatStr(n);
    forall c | c in s ensures IsDigit(c) {
      var k :| 0 <= k < |s| && s[k] == c;
    }
  }

  /** A listed line is one non-empty line holding a ':'. */
  lemma ListLinePlain(i: nat, w: nat, e: Entry, file: string, ln: string)
    requires e.location == file + ":" + ln
    requires NoBreak(e.name) && NoBreak(file) && NoBreak(ln)
    ensures ListLine(i, w, e) != [] && ':' in ListLine(i, w, e) && '\n' !in ListLine(i, w, e)
  {
    var digits := NatStr(i);
    var pad := Spaces(if |digits| < w then w - |digits| else 0);
    var rest := Listed(e.name, file, ln);
    ListLineForm(i, w, e, file, ln);
    ListedNoBreak(e.name, file, ln);
    NatStrPlain(i);
    var line := pad + (digits + ":" + rest);
    assert line[|pad| + |digits|] == ':';
    assert '\n' !in pad;
    assert '\n' !in digits + ":" + rest;
  }

  /** The `k`-th listed line of a listable registry parses into the `k`-th test case. */
  lemma ListingParses(es: seq<Entry>, files: seq<string>, lines: seq<nat>, k: nat)
    requires Listable(es, files, lines) && k < |es|
    ensures ParseLine(Listing(es)[k]) == Some(TestLine(NatStr(k), es[k].name, files[k], NatStr(lines[k])))
  {
    NatStrPlain(lines[k]);
    ParseListLine(k, Digits(|es|), es[k], files[k], NatStr(lines[k]));
  }

  /** Parse results that give, line by line, the two lines `discover_test_case` writes
      for the test case at the same position write, for the first `n` of them, the first
      `2n` lines of its block. */
  lemma {:induction false} EmitPrefix(ps: seq<Option<TestLine>>, es: seq<Entry>, exe: string, n: nat)
    requires |ps| == |es| && n <= |es| && AllRewritable(es)
    requires forall k :: 0 <= k < |es| ==> ps[k].Some? && TestLines(ps[k].value, exe) == EntryLines(es[k], exe, k)
    ensures AllRewritable(es[..n])
    ensures EmitParsed(ps[..n], exe) == (BlockLines(es[..n], exe), None)
  {
    if n == 0 {
      assert ps[..0] == [];
      assert es[..0] == [];
    } else {
      EmitPrefix(ps, es, exe, n - 1);
      var k := n - 1;
      var t := ps[k].value;
      PrefixSnoc(ps, k);
      EmitParsedSnoc(ps[..k], t, exe);
      BlockLinesStep(es, exe, k);
    }
  }

  /** What the `k`-th listed line parses into. */
  function ListedTest(es: seq<Entry>, files: seq<string>, lines: seq<nat>, k: nat): TestLine
    requires Listable(es, files, lines) && k < |es|
  {
    TestLine(NatStr(k), es[k].name, files[k], NatStr(lines[k]))
  }

  /** The `k`-th listed line parses, and the tool writes for it the lines
      `discover_test_case` writes for the `k`-th test case. */
  lemma ListedTestLines(es: seq<Entry>, files: seq<string>, lines: seq<nat>, exe: string, k: nat)
    requires Listable(es, files, lines) && k < |es|
    ensures Parsed(Listing(es))[k] == Some(ListedTest(es, files, lines, k))
    ensures ':' in es[k].location
    ensures TestLines(ListedTest(es, files, lines, k), exe) == EntryLines(es[k], exe, k)
  {
    ListingParses(es, files, lines, k);
    NatStrPlain(lines[k]);
    SameLinesAsInProcess(es[k], exe, exe, k, files[k], NatStr(lines[k]));
  }

  /** Parsing the whole listing writes exactly the block `discover_test_case` writes. */
  lemma EmitListing(es: seq<Entry>, files: seq<string>, lines: seq<nat>, exe: string)
    requires Listable(es, files, lines)
    ensures AllRewritable(es)
    ensures EmitLines(Listing(es), exe) == (BlockLines(es, exe), None)
  {
    var ps := Parsed(Listing(es));
    forall k | 0 <= k < |es|
      ensures ps[k] == Some(ListedTest(es, files, lines, k)) && ':' in es[k].location
    {
      ListedTestLines(es, files, lines, exe, k);
    }
    forall k | 0 <= k < |es| ensures TestLines(ps[k].value, exe) == EntryLines(es[k], exe, k) {
      ListedTestLines(es, files, lines, exe, k);
    }
    EmitPrefix(ps, es, exe, |es|);
    assert es[..|es|] == es;
    assert ps[..|es|] == ps;
  }

  /** The listed lines are all selected when they stand between two `guid` lines. */
  lemma SelectListing(es: seq<Entry>, files: seq<string>, lines: seq<nat>, guid: string, before: seq<string>, after: seq<string>)
    requires Listable(es, files, lines)
    requires ':' !in guid && guid !in before
    ensures SelectLines(before + [guid] + Listing(es) + [guid] + after, guid) == Listing(es)
  {
    var ls := before + [guid] + Listing(es) + [guid] + after;
    var i := |before|;
    var j := i + 1 + |es|;
    forall k | 0 <= k < |es| ensures Listing(es)[k] != [] && ':' in Listing(es)[k] {
      NatStrPlain(lines[k]);
      ListLinePlain(k, Digits(|es|), es[k], files[k], NatStr(lines[k]));
    }
    assert ls[..i] == before;
    assert ls[i + 1..j] == Listing(es);
    assert ls[j] == guid;
    SelectBetween(ls, guid, i, j);
    NonEmptyAll(Listing(es));
  }

  /** `filter` keeps every line when none is empty. */
  lemma {:induction false} NonEmptyAll(ls: seq<string>)
    requires forall k :: 0 <= k < |ls| ==> ls[k] != []
    ensures NonEmpty(ls) == ls
  {
    if ls != [] {
      NonEmptyAll(ls[1..]);
      assert ls == [ls[0]] + ls[1..];
    }
  }

  /** The listing printed between two `guid` lines, whatever comes before the first and
      after the second, splits into the lines printed. */
  lemma SplitListing(es: seq<Entry>, files: seq<string>, lines: seq<nat>, guid: string, before: seq<string>, after: seq<string>)
    requires Listable(es, files, lines)
    requires '\n' !in guid
    requires forall k :: 0 <= k < |before| ==> '\n' !in before[k]
    requires forall k :: 0 <= k < |after| ==> '\n' !in after[k]
    ensures SplitLines(JoinLines(before + [guid] + Listing(es) + [guid] + after))
         == before + [guid] + Listing(es) + [guid] + after + [""]
  {
    var ls := before + [guid] + Listing(es) + [guid] + after;
    forall k | 0 <= k < |es| ensures '\n' !in Listing(es)[k] {
      NatStrPlain(lines[k]);
      ListLinePlain(k, Digits(|es|), es[k], files[k], NatStr(lines[k]));
    }
    OneLineEach(before, [guid]);
    OneLineEach(before + [guid], Listing(es));
    OneLineEach(before + [guid] + Listing(es), [guid]);
    OneLineEach(before + [guid] + Listing(es) + [guid], after);
    SplitPrintedLines(ls);
    assert JoinLines(ls) != [] by {
      assert ls != [];
      assert JoinLines(ls) == ls[0] + "\n" + JoinLines(ls[1..]);
    }
  }

  lemma OneLineEach(a: seq<string>, b: seq<string>)
    requires forall k :: 0 <= k < |a| ==> '\n' !in a[k]
    requires forall k :: 0 <= k < |b| ==> '\n' !in b[k]
    ensures forall k :: 0 <= k < |a + b| ==> '\n' !in (a + b)[k]
  {
    forall k | 0 <= k < |a + b| ensures '\n' !in (a + b)[k] {
      if k >= |a| {
        assert (a + b)[k] == b[k - |a|];
      }
    }
  }

  /** Whatever the tool reads from the target's listing, it writes the add_test and
      set_tests_properties lines `discover_test_case` writes into the CTest file for the
      same registry, and the placeholder for an empty one: for a listing printed between
      two `guid` lines, test cases registered by TEST_CASE with names and files the
      listing can carry, and a `guid` without ':' or newline. The tool names the target
      as it was given, `target` (its `argv[1]`), where `discover_test_case` writes
      `exePath`, the absolute generic path of the target's own `argv[0]`: for a non-empty
      registry the two files agree exactly when these strings are the same. */
  lemma DiscoveryPathsAgree(es: seq<Entry>, files: seq<string>, lines: seq<nat>, target: string, exePath: string,
                            filename: string, guid: string, before: seq<string>, after: seq<string>)
    requires Listable(es, files, lines)
    requires ':' !in guid && '\n' !in guid && guid !in before
    requires forall k :: 0 <= k < |before| ==> '\n' !in before[k]
    requires forall k :: 0 <= k < |after| ==> '\n' !in after[k]
    ensures AllRewritable(es)
    ensures var output := JoinLines(before + [guid] + Listing(es) + [guid] + after);
      TestsFile(SelectLines(SplitLines(output), guid), target, filename, guid)
        == (if es == [] then [Placeholder(filename, guid)] else BlockLines(es, target), None)
    ensures es != [] ==> (BlockLines(es, target) == BlockLines(es, exePath) <==> target == exePath)
  {
    var ls := before + [guid] + Listing(es) + [guid] + after;
    SplitListing(es, files, lines, guid, before, after);
    assert ls + [""] == before + [guid] + Listing(es) + [guid] + (after + [""]);
    SelectListing(es, files, lines, guid, before, after + [""]);
    EmitListing(es, files, lines, target);
    if es != [] {
      BlockLinesExe(es, target, exePath);
    }
  }

  /** The executable path can be read back from an `add_test` line. */
  lemma AddTestLineExe(name: string, a: string, b: string, index: string)
    requires AddTestLine(name, a, index) == AddTestLine(name, b, index)
    ensures a == b
  {
    var pre := "add_test([====[" + name + "]====] \"";
    var post := "\" " + MinitestH.FlagPriImplRunNthTestCase + " \"" + index + "\")";
    assert AddTestLine(name, a, index) == pre + a + post;
    assert AddTestLine(name, b, index) == pre + b + post;
    assert a == (pre + a + post)[|pre|..|pre| + |a|];
    assert b == (pre + b + post)[|pre|..|pre| + |b|];
  }

  /** Two blocks for a non-empty registry are the same exactly when they name the same
      executable. */
  lemma BlockLinesExe(es: seq<Entry>, a: string, b: string)
    requires AllRewritable(es) && es != []
    ensures BlockLines(es, a) == BlockLines(es, b) <==> a == b
  {
    if BlockLines(es, a) == BlockLines(es, b) {
      BlockLinesShape(es, a);
      BlockLinesShape(es, b);
      AddTestLineExe(es[0].name, a, b, NatStr(0));
    }
  }
}
