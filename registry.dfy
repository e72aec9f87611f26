/** The process-wide registry of minitest.cpp: a `std::map<string_view, test_case_info>`
    from test-case name to (test function, source location). A `std::map` iterates in
    ascending key order, so the registry is modelled as the sequence of its entries in
    that order; the "index" of a test case is its position in this sequence. */
module Registry {
  import opened Common
  import opened MinitestH

  // ---------------------------------------------------------------------------
  // Lexicographic order on names (`std::string_view::compare`)

  /** `a < b` for `std::string_view`: the first differing character decides, and a
      proper prefix comes first. */
  predicate Less(a: string, b: string)
  {
    if a == [] then b != []
    else if b == [] then false
    else a[0] < b[0] || (a[0] == b[0] && Less(a[1..], b[1..]))
  }

  lemma {:induction false} LessIrreflexive(a: string)
    ensures !Less(a, a)
  {
    if a != [] {
      LessIrreflexive(a[1..]);
    }
  }

  lemma {:induction false} LessTransitive(a: string, b: string, c: string)
    requires Less(a, b) && Less(b, c)
    ensures Less(a, c)
  {
    if a != [] && b != [] && c != [] && a[0] == b[0] && b[0] == c[0] {
      LessTransitive(a[1..], b[1..], c[1..]);
    }
  }

  lemma {:induction false} LessTrichotomy(a: string, b: string)
    ensures a == b || Less(a, b) || Less(b, a)
  {
    if a != [] && b != [] && a[0] == b[0] {
      LessTrichotomy(a[1..], b[1..]);
      if a[1..] == b[1..] {
        assert a == [a[0]] + a[1..] && b == [b[0]] + b[1..];
      }
    }
  }

  lemma LessAsymmetric(a: string, b: string)
    requires Less(a, b)
    ensures !Less(b, a)
  {
    if Less(b, a) {
      LessTransitive(a, b, a);
      LessIrreflexive(a);
    }
  }

  // ---------------------------------------------------------------------------
  // Entries

  /** One registered test case: its name, its test function and its location string
      (`__FILE__ ":" __LINE__` when registered through TEST_CASE). */
  datatype Entry = Entry(name: string, body: Body, location: string)

  /** The entries are in strictly ascending name order, so no name occurs twice. */
  predicate Sorted(es: seq<Entry>)
  {
    forall i, j :: 0 <= i < j < |es| ==> Less(es[i].name, es[j].name)
  }

  function Names(es: seq<Entry>): set<string>
  {
    set i | 0 <= i < |es| :: es[i].name
  }

  /** `map::insert` of a name that is not yet present. */
  function Insert(es: seq<Entry>, e: Entry): (r: seq<Entry>)
    requires Sorted(es) && e.name !in Names(es)
    ensures Sorted(r)
    ensures |r| == |es| + 1
    ensures forall x :: x in r <==> x in es || x == e
  {
    if es == [] then [e]
    else if Less(e.name, es[0].name) then
      assert forall j :: 0 <= j < |es| ==> Less(e.name, es[j].name) by {
        forall j | 0 <= j < |es| ensures Less(e.name, es[j].name) {
          if j > 0 { LessTransitive(e.name, es[0].name, es[j].name); }
        }
      }
      [e] + es
    else
      assert Names(es[1..]) <= Names(es) by {
        forall n | n in Names(es[1..]) ensures n in Names(es) {
          var i :| 0 <= i < |es[1..]| && es[1..][i].name == n;
          assert es[i + 1].name == n;
        }
      }
      var tail := Insert(es[1..], e);
      assert e.name != es[0].name;
      LessTrichotomy(e.name, es[0].name);
      assert Less(es[0].name, e.name);
      var r := [es[0]] + tail;
      assert forall j :: 0 < j < |r| ==> Less(es[0].name, r[j].name) by {
        forall j | 0 < j < |r| ensures Less(es[0].name, r[j].name) {
          assert r[j] in tail;
          assert r[j] in es[1..] || r[j] == e;
        }
      }
      assert es == [es[0]] + es[1..];
      r
  }

  lemma InsertNames(es: seq<Entry>, e: Entry)
    requires Sorted(es) && e.name !in Names(es)
    ensures Names(Insert(es, e)) == Names(es) + {e.name}
  {
    var r := Insert(es, e);
    forall n | n in Names(r) ensures n in Names(es) + {e.name} {
      var i :| 0 <= i < |r| && r[i].name == n;
      assert r[i] in r;
      if r[i] != e {
        var j :| 0 <= j < |es| && es[j] == r[i];
      }
    }
    forall n | n in Names(es) + {e.name} ensures n in Names(r) {
      if n == e.name {
        assert e in r;
        var i :| 0 <= i < |r| && r[i] == e;
      } else {
        var j :| 0 <= j < |es| && es[j].name == n;
        assert es[j] in es;
        var i :| 0 <= i < |r| && r[i] == es[j];
      }
    }
  }

  /** `map::find(name)`. */
  function Find(es: seq<Entry>, name: string): (r: Option<Entry>)
    ensures r.Some? ==> r.value in es && r.value.name == name
    ensures r.None? <==> name !in Names(es)
  {
    if es == [] then None
    else if es[0].name == name then Some(es[0])
    else
      var r := Find(es[1..], name);
      assert Names(es) == {es[0].name} + Names(es[1..]) by {
        forall n | n in Names(es) ensures n in {es[0].name} + Names(es[1..]) {
          var i :| 0 <= i < |es| && es[i].name == n;
          if i > 0 { assert es[1..][i - 1].name == n; }
        }
        forall n | n in Names(es[1..]) ensures n in Names(es) {
          var i :| 0 <= i < |es[1..]| && es[1..][i].name == n;
          assert es[i + 1].name == n;
        }
      }
      r
  }

  /** `std::next(map.begin(), n)`, or `None` when `n` is not below the size. */
  function Nth(es: seq<Entry>, n: nat): Option<Entry>
  {
    if n < |es| then Some(es[n]) else None
  }

  // ---------------------------------------------------------------------------
  // What the order gives

  lemma {:induction false} SortedNamesCount(es: seq<Entry>)
    requires Sorted(es)
    ensures |Names(es)| == |es|
  {
    if es != [] {
      var tail := es[1..];
      SortedNamesCount(tail);
      assert Names(es) == {es[0].name} + Names(tail) by {
        forall n | n in Names(es) ensures n in {es[0].name} + Names(tail) {
          var i :| 0 <= i < |es| && es[i].name == n;
          if i > 0 { assert tail[i - 1].name == n; }
        }
        forall n | n in Names(tail) ensures n in Names(es) {
          var i :| 0 <= i < |tail| && tail[i].name == n;
          assert es[i + 1].name == n;
        }
      }
      assert es[0].name !in Names(tail) by {
        if es[0].name in Names(tail) {
          var i :| 0 <= i < |tail| && tail[i].name == es[0].name;
          assert Less(es[0].name, es[i + 1].name);
          LessIrreflexive(es[0].name);
        }
      }
    }
  }

  /** Index `n` designates the n-th smallest name: the registered names below
      `es[n].name` are exactly those of the `n` entries before it. */
  lemma NthIsRank(es: seq<Entry>, n: nat)
    requires Sorted(es) && n < |es|
    ensures Nth(es, n) == Some(es[n])
    ensures (set m | m in Names(es) && Less(m, es[n].name)) == Names(es[..n])
    ensures |Names(es[..n])| == n
  {
    var below := set m | m in Names(es) && Less(m, es[n].name);
    forall m | m in below ensures m in Names(es[..n]) {
      var i :| 0 <= i < |es| && es[i].name == m;
      if i >= n {
        if i > n { LessAsymmetric(es[n].name, es[i].name); }
        else { LessIrreflexive(m); }
      }
      assert es[..n][i].name == m;
    }
    forall m | m in Names(es[..n]) ensures m in below {
      var i :| 0 <= i < n && es[..n][i].name == m;
      assert es[i].name == m;
    }
    assert Sorted(es[..n]);
    SortedNamesCount(es[..n]);
  }

  /** A strictly sorted sequence is determined by its elements: two registries holding
      the same entries list them identically. */
  lemma {:induction false} SortedUnique(a: seq<Entry>, b: seq<Entry>)
    requires Sorted(a) && Sorted(b)
    requires forall x :: x in a <==> x in b
    ensures a == b
  {
    if a != [] { assert a[0] in a; }
    if b != [] { assert b[0] in b; }
    if a != [] && b != [] {
      if a[0] != b[0] {
        var i :| 0 <= i < |b| && b[i] == a[0];
        var j :| 0 <= j < |a| && a[j] == b[0];
        assert i > 0 && j > 0;
        LessAsymmetric(b[0].name, a[0].name);
      }
      forall x ensures x in a[1..] <==> x in b[1..] {
        if x in a[1..] {
          var k :| 0 <= k < |a[1..]| && a[1..][k] == x;
          assert Less(a[0].name, a[k + 1].name);
          LessIrreflexive(a[0].name);
          assert x in b && x != b[0];
        }
        if x in b[1..] {
          var k :| 0 <= k < |b[1..]| && b[1..][k] == x;
          assert Less(b[0].name, b[k + 1].name);
          LessIrreflexive(b[0].name);
          assert x in a && x != a[0];
        }
      }
      SortedUnique(a[1..], b[1..]);
      assert a == [a[0]] + a[1..] && b == [b[0]] + b[1..];
    }
  }

  // ---------------------------------------------------------------------------
  // Registration (`auto_reg_test_case`)

  /** One `auto_reg_test_case(name, func, location)` call; a null name is `None`. */
  datatype Registration = Registration(name: Option<string>, body: Body, location: string)

  /** The entry a registration with a name adds. */
  function EntryOf(g: Registration): Entry
    requires g.name.Some?
  {
    Entry(g.name.value, g.body, g.location)
  }

  /** A registration with a null, empty or already registered name is refused (the
      process exits with MINITEST_FAILURE, shown as `None`) and leaves the registry as it
      was; any other adds exactly its entry and keeps every other entry. */
  function Register(es: seq<Entry>, g: Registration): (r: Option<seq<Entry>>)
    requires Sorted(es)
    ensures r.None? <==> g.name.None? || g.name.value == [] || g.name.value in Names(es)
    ensures r.Some? ==> Sorted(r.value) && |r.value| == |es| + 1
    ensures r.Some? ==> forall x :: x in r.value <==> x in es || x == EntryOf(g)
    ensures r.Some? ==> Names(r.value) == Names(es) + {g.name.value}
  {
    if g.name.None? || g.name.value == [] || g.name.value in Names(es) then None
    else
      InsertNames(es, EntryOf(g));
      Some(Insert(es, EntryOf(g)))
  }

  /** The registrations `gs` made one after the other; the first refused one ends the process. */
  function RegisterAll(es: seq<Entry>, gs: seq<Registration>): (r: Option<seq<Entry>>)
    requires Sorted(es)
    ensures r.Some? ==> Sorted(r.value)
    decreases |gs|
  {
    if gs == [] then Some(es)
    else match Register(es, gs[0])
      case None => None
      case Some(es') => RegisterAll(es', gs[1..])
  }

  /** A sequence of registrations all succeed exactly when every name is non-null,
      non-empty, not registered before, and no two of them are equal. */
  lemma {:induction false} RegisterAllSucceeds(es: seq<Entry>, gs: seq<Registration>)
    requires Sorted(es)
    ensures RegisterAll(es, gs).Some? <==>
      && (forall k :: 0 <= k < |gs| ==> gs[k].name.Some? && gs[k].name.value != [] && gs[k].name.value !in Names(es))
      && (forall i, j :: 0 <= i < j < |gs| ==> gs[i].name != gs[j].name)
    decreases |gs|
  {
    if gs != [] {
      var g := gs[0];
      var tail := gs[1..];
      assert forall k :: 0 <= k < |tail| ==> tail[k] == gs[k + 1];
      if Register(es, g).Some? {
        var es' := Register(es, g).value;
        RegisterAllSucceeds(es', tail);
      }
    }
  }

  /** After successful registrations the registry holds exactly the earlier entries and
      one entry per registration. */
  lemma {:induction false} RegisterAllContents(es: seq<Entry>, gs: seq<Registration>)
    requires Sorted(es) && RegisterAll(es, gs).Some?
    ensures forall x :: x in RegisterAll(es, gs).value <==>
      x in es || exists k :: 0 <= k < |gs| && gs[k].name.Some? && x == EntryOf(gs[k])
    decreases |gs|
  {
    if gs != [] {
      var es' := Register(es, gs[0]).value;
      var tail := gs[1..];
      RegisterAllContents(es', tail);
      forall x ensures x in RegisterAll(es, gs).value <==>
        x in es || exists k :: 0 <= k < |gs| && gs[k].name.Some? && x == EntryOf(gs[k])
      {
        if exists k :: 0 <= k < |tail| && tail[k].name.Some? && x == EntryOf(tail[k]) {
          var k :| 0 <= k < |tail| && tail[k].name.Some? && x == EntryOf(tail[k]);
          assert gs[k + 1] == tail[k];
        }
        if exists k :: 0 <= k < |gs| && gs[k].name.Some? && x == EntryOf(gs[k]) {
          var k :| 0 <= k < |gs| && gs[k].name.Some? && x == EntryOf(gs[k]);
          if k > 0 { assert tail[k - 1] == gs[k]; }
        }
      }
    }
  }

  /** Iteration order does not depend on registration order: the same successful
      registrations made in any two orders give the same registry. */
  lemma RegistrationOrderIrrelevant(gs1: seq<Registration>, gs2: seq<Registration>)
    requires multiset(gs1) == multiset(gs2)
    requires RegisterAll([], gs1).Some? && RegisterAll([], gs2).Some?
    ensures RegisterAll([], gs1) == RegisterAll([], gs2)
  {
    var r1 := RegisterAll([], gs1).value;
    var r2 := RegisterAll([], gs2).value;
    RegisterAllContents([], gs1);
    RegisterAllContents([], gs2);
    forall x ensures x in r1 <==> x in r2 {
      if x in r1 {
        var k :| 0 <= k < |gs1| && gs1[k].name.Some? && x == EntryOf(gs1[k]);
        assert gs1[k] in multiset(gs2);
        var k2 :| 0 <= k2 < |gs2| && gs2[k2] == gs1[k];
      }
      if x in r2 {
        var k :| 0 <= k < |gs2| && gs2[k].name.Some? && x == EntryOf(gs2[k]);
        assert gs2[k] in multiset(gs1);
        var k1 :| 0 <= k1 < |gs1| && gs1[k1] == gs2[k];
      }
    }
    SortedUnique(r1, r2);
  }
}
