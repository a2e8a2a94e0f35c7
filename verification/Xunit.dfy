/** Aggregating a multi-pass report: the body of `parse_xunit` in f/fstests/common.py, from
    the testcase elements on. Summed run times are not part of this model. */
module Xunit {

  datatype Failure = Failure(message: string, kind: string)

  /** One testcase element: one pass of the test called `name`. */
  datatype Case<N> = Case(name: N, failures: seq<Failure>, skipped: bool)

  datatype FailEntry = FailEntry(first: Failure, fails: nat)

  datatype Tally<!N> = Tally(failed: map<N, FailEntry>, runs: map<N, nat>, skips: map<N, nat>)

  datatype Status = Failed | Notrun | Passed

  datatype Row<N> = Row(test: N, status: Status, runs: nat, fails: nat, message: string)

  datatype Report<N> = Report(passed: nat, failed: nat, skipped: nat, tests: nat, iterations: nat, perTest: seq<Row<N>>)

  // ----- what the passes say about one test ---------------------------------------

  predicate SkippedOnly<N>(c: Case<N>) {
    c.skipped && |c.failures| == 0
  }

  function Runs<N(==)>(cases: seq<Case<N>>, n: N): nat {
    if |cases| == 0 then 0 else (if cases[0].name == n then 1 else 0) + Runs(cases[1..], n)
  }

  function Fails<N(==)>(cases: seq<Case<N>>, n: N): nat {
    if |cases| == 0 then 0 else (if cases[0].name == n then |cases[0].failures| else 0) + Fails(cases[1..], n)
  }

  function Skips<N(==)>(cases: seq<Case<N>>, n: N): nat {
    if |cases| == 0 then 0
    else (if cases[0].name == n && SkippedOnly(cases[0]) then 1 else 0) + Skips(cases[1..], n)
  }

  function StatusOf<N(==)>(cases: seq<Case<N>>, n: N): Status {
    if Fails(cases, n) > 0 then Failed else if Skips(cases, n) == Runs(cases, n) then Notrun else Passed
  }

  function Names<N(==)>(cases: seq<Case<N>>): set<N> {
    set c | c in cases :: c.name
  }

  function WithStatus<N(==)>(cases: seq<Case<N>>, status: Status): set<N> {
    set n | n in Names(cases) && StatusOf(cases, n) == status
  }

  ghost predicate SomePassFailed<N>(cases: seq<Case<N>>, n: N) {
    exists i :: 0 <= i < |cases| && cases[i].name == n && |cases[i].failures| > 0
  }

  ghost predicate EveryPassSkipped<N>(cases: seq<Case<N>>, n: N) {
    forall i :: 0 <= i < |cases| && cases[i].name == n ==> SkippedOnly(cases[i])
  }

  lemma {:induction false} CountsMeaning<N>(cases: seq<Case<N>>, n: N)
    ensures Fails(cases, n) > 0 <==> SomePassFailed(cases, n)
    ensures Skips(cases, n) <= Runs(cases, n)
    ensures Skips(cases, n) == Runs(cases, n) <==> EveryPassSkipped(cases, n)
  {
    if |cases| > 0 {
      CountsMeaning(cases[1..], n);
      assert forall i :: 0 < i < |cases| ==> cases[i] == cases[1..][i - 1];
      if SomePassFailed(cases[1..], n) {
        var i :| 0 <= i < |cases[1..]| && cases[1..][i].name == n && |cases[1..][i].failures| > 0;
        assert cases[i + 1].name == n;
      }
      if EveryPassSkipped(cases, n) {
        forall i | 0 <= i < |cases[1..]| && cases[1..][i].name == n
          ensures SkippedOnly(cases[1..][i])
        {
          assert cases[i + 1].name == n;
        }
      }
    }
  }

  lemma {:induction false} RunsMeaning<N>(cases: seq<Case<N>>, n: N)
    ensures Runs(cases, n) > 0 <==> n in Names(cases)
  {
    if |cases| > 0 {
      RunsMeaning(cases[1..], n);
      assert cases == [cases[0]] + cases[1..];
      assert forall c :: c in cases <==> c == cases[0] || c in cases[1..];
    }
  }

  /** A test is failed when some pass failed, not run when it has passes and every one was
      skipped without failing, and passed otherwise. */
  lemma StatusMeaning<N>(cases: seq<Case<N>>, n: N)
    ensures n in WithStatus(cases, Failed) <==> SomePassFailed(cases, n)
    ensures n in WithStatus(cases, Notrun) <==> n in Names(cases) && EveryPassSkipped(cases, n)
    ensures n in WithStatus(cases, Passed)
       <==> n in Names(cases) && !SomePassFailed(cases, n) && !EveryPassSkipped(cases, n)
  {
    CountsMeaning(cases, n);
    if SomePassFailed(cases, n) {
      var i :| 0 <= i < |cases| && cases[i].name == n && |cases[i].failures| > 0;
      assert cases[i] in cases && !SkippedOnly(cases[i]);
    }
  }

  // ----- the order of the passes --------------------------------------------------

  function Without<T>(xs: seq<T>, i: nat): seq<T>
    requires i < |xs|
  {
    xs[..i] + xs[i + 1..]
  }

  lemma {:induction false} TakeOut<N>(cases: seq<Case<N>>, i: nat, n: N)
    requires i < |cases|
    ensures Runs(cases, n) == Runs(Without(cases, i), n) + if cases[i].name == n then 1 else 0
    ensures Fails(cases, n) == Fails(Without(cases, i), n) + if cases[i].name == n then |cases[i].failures| else 0
    ensures Skips(cases, n)
         == Skips(Without(cases, i), n) + if cases[i].name == n && SkippedOnly(cases[i]) then 1 else 0
    decreases i
  {
    if i == 0 {
      assert Without(cases, 0) == cases[1..];
    } else {
      TakeOut(cases[1..], i - 1, n);
      assert Without(cases, i)[0] == cases[0];
      assert Without(cases, i)[1..] == Without(cases[1..], i - 1);
    }
  }

  lemma WithoutDrops<T>(xs: seq<T>, i: nat)
    requires i < |xs|
    ensures multiset(Without(xs, i)) == multiset(xs) - multiset{xs[i]}
  {
    assert xs == xs[..i] + [xs[i]] + xs[i + 1..];
  }

  /** No count and no status depends on the order in which the passes are reported. */
  lemma {:induction false} OrderNeverMatters<N>(a: seq<Case<N>>, b: seq<Case<N>>, n: N)
    requires multiset(a) == multiset(b)
    ensures Runs(a, n) == Runs(b, n) && Fails(a, n) == Fails(b, n) && Skips(a, n) == Skips(b, n)
    ensures StatusOf(a, n) == StatusOf(b, n)
    decreases |a|
  {
    assert |multiset(a)| == |a| && |multiset(b)| == |b|;
    if |a| > 0 {
      assert a[0] in multiset(b);
      var i: nat :| i < |b| && b[i] == a[0];
      TakeOut(a, 0, n);
      TakeOut(b, i, n);
      WithoutDrops(a, 0);
      WithoutDrops(b, i);
      OrderNeverMatters(Without(a, 0), Without(b, i), n);
    }
  }

  /** So the totals of a report do not depend on it either. */
  lemma TotalsIgnoreOrder<N(!new)>(a: seq<Case<N>>, b: seq<Case<N>>)
    requires multiset(a) == multiset(b)
    ensures Names(a) == Names(b)
    ensures forall status :: WithStatus(a, status) == WithStatus(b, status)
  {
    forall n: N
      ensures n in Names(a) <==> n in Names(b)
      ensures StatusOf(a, n) == StatusOf(b, n)
    {
      OrderNeverMatters(a, b, n);
      RunsMeaning(a, n);
      RunsMeaning(b, n);
    }
  }

  function FailingPasses<N(==)>(cases: seq<Case<N>>, n: N): nat {
    if |cases| == 0 then 0
    else (if cases[0].name == n && |cases[0].failures| > 0 then 1 else 0) + FailingPasses(cases[1..], n)
  }

  ghost predicate OneFailureEach<N>(cases: seq<Case<N>>, n: N) {
    forall i :: 0 <= i < |cases| && cases[i].name == n ==> |cases[i].failures| <= 1
  }

  /** The row's `fails` is described as the number of passes that failed. It counts failure
      elements: the two agree exactly when no pass of the test carries more than one. */
  lemma {:induction false} FailsCountsElements<N>(cases: seq<Case<N>>, n: N)
    ensures Fails(cases, n) >= FailingPasses(cases, n)
    ensures Fails(cases, n) == FailingPasses(cases, n) <==> OneFailureEach(cases, n)
  {
    if |cases| > 0 {
      FailsCountsElements(cases[1..], n);
      assert forall i :: 0 < i < |cases| ==> cases[i] == cases[1..][i - 1];
      if OneFailureEach(cases, n) {
        forall i | 0 <= i < |cases[1..]| && cases[1..][i].name == n
          ensures |cases[1..][i].failures| <= 1
        {
          assert cases[i + 1].name == n;
        }
      }
    }
  }

  /** One failing pass with two failure elements counts as two. */
  lemma TwoFailuresCountTwice<N>(n: N, a: Failure, b: Failure)
    ensures Fails([Case(n, [a, b], false)], n) == 2 && FailingPasses([Case(n, [a, b], false)], n) == 1
  {
    var pass := Case(n, [a, b], false);
    assert |pass.failures| == 2 && Fails([pass][1..], n) == 0 && FailingPasses([pass][1..], n) == 0;
  }

  // ----- the loop over the testcases ----------------------------------------------

  function Count<N(==)>(counts: map<N, nat>, n: N): nat {
    if n in counts then counts[n] else 0
  }

  function FailCount<N(==)>(failed: map<N, FailEntry>, n: N): nat {
    if n in failed then failed[n].fails else 0
  }

  /** The first failure any pass of `n` reported. */
  ghost predicate IsFirstFailure<N>(cases: seq<Case<N>>, n: N, first: Failure) {
    exists i :: 0 <= i < |cases| && FirstFailureAt(cases, n, first, i)
  }

  ghost predicate FirstFailureAt<N>(cases: seq<Case<N>>, n: N, first: Failure, i: nat)
    requires i < |cases|
  {
    && cases[i].name == n && |cases[i].failures| > 0 && cases[i].failures[0] == first
    && forall k :: 0 <= k < i && cases[k].name == n ==> |cases[k].failures| == 0
  }

  ghost predicate DescribesOne<N>(t: Tally<N>, cases: seq<Case<N>>, n: N) {
    && Count(t.runs, n) == Runs(cases, n) && (n in t.runs <==> Runs(cases, n) > 0)
    && FailCount(t.failed, n) == Fails(cases, n) && (n in t.failed <==> Fails(cases, n) > 0)
    && Count(t.skips, n) == Skips(cases, n)
    && (n in t.failed ==> IsFirstFailure(cases, n, t.failed[n].first))
  }

  ghost predicate Describes<N(!new)>(t: Tally<N>, cases: seq<Case<N>>) {
    forall n: N :: DescribesOne(t, cases, n)
  }

  ghost predicate Unchanged<N>(after: Tally<N>, before: Tally<N>, n: N) {
    && (n in after.failed <==> n in before.failed) && (n in before.failed ==> after.failed[n] == before.failed[n])
    && (n in after.runs <==> n in before.runs) && Count(after.runs, n) == Count(before.runs, n)
    && Count(after.skips, n) == Count(before.skips, n)
  }

  /** What one testcase adds to the tally of its own test. */
  ghost predicate AddedOne<N>(after: Tally<N>, before: Tally<N>, c: Case<N>) {
    && c.name in after.runs && after.runs[c.name] == Count(before.runs, c.name) + 1
    && FailCount(after.failed, c.name) == FailCount(before.failed, c.name) + |c.failures|
    && (c.name in after.failed <==> c.name in before.failed || |c.failures| > 0)
    && (c.name in before.failed ==> after.failed[c.name].first == before.failed[c.name].first)
    && (c.name !in before.failed && |c.failures| > 0 ==> after.failed[c.name].first == c.failures[0])
    && Count(after.skips, c.name) == Count(before.skips, c.name) + if SkippedOnly(c) then 1 else 0
  }

  method AddFailures<N(==)>(failed: map<N, FailEntry>, c: Case<N>) returns (after: map<N, FailEntry>)
    ensures after.Keys == failed.Keys + if |c.failures| > 0 then {c.name} else {}
    ensures forall n :: n in failed && n != c.name ==> after[n] == failed[n]
    ensures FailCount(after, c.name) == FailCount(failed, c.name) + |c.failures|
    ensures c.name in failed ==> after[c.name].first == failed[c.name].first
    ensures c.name !in failed && |c.failures| > 0 ==> after[c.name].first == c.failures[0]
  {
    after := failed;
    for i := 0 to |c.failures|
      invariant after.Keys == failed.Keys + if i > 0 then {c.name} else {}
      invariant forall n :: n in failed && n != c.name ==> after[n] == failed[n]
      invariant FailCount(after, c.name) == FailCount(failed, c.name) + i
      invariant c.name in failed ==> after[c.name].first == failed[c.name].first
      invariant c.name !in failed && i > 0 ==> after[c.name].first == c.failures[0]
    {
      if c.name in after {
        after := after[c.name := after[c.name].(fails := after[c.name].fails + 1)];
      } else {
        after := after[c.name := FailEntry(c.failures[i], 1)];
      }
    }
  }

  method AddCase<N(==,!new)>(t: Tally<N>, c: Case<N>) returns (after: Tally<N>)
    ensures AddedOne(after, t, c)
    ensures forall n: N :: n != c.name ==> Unchanged(after, t, n)
  {
    var failed := AddFailures(t.failed, c);
    var runs := t.runs[c.name := Count(t.runs, c.name) + 1];
    var skips := if SkippedOnly(c) then t.skips[c.name := Count(t.skips, c.name) + 1] else t.skips;
    after := Tally(failed, runs, skips);
  }

  lemma FirstFailureStays<N>(cases: seq<Case<N>>, c: Case<N>, n: N, first: Failure)
    requires IsFirstFailure(cases, n, first)
    ensures IsFirstFailure(cases + [c], n, first)
  {
    var i :| 0 <= i < |cases| && FirstFailureAt(cases, n, first, i);
    assert FirstFailureAt(cases + [c], n, first, i);
  }

  lemma FirstFailureNow<N>(cases: seq<Case<N>>, c: Case<N>)
    requires Fails(cases, c.name) == 0 && |c.failures| > 0
    ensures IsFirstFailure(cases + [c], c.name, c.failures[0])
  {
    CountsMeaning(cases, c.name);
    assert FirstFailureAt(cases + [c], c.name, c.failures[0], |cases|);
  }

  lemma StepDescribes<N>(before: Tally<N>, after: Tally<N>, cases: seq<Case<N>>, c: Case<N>, n: N)
    requires DescribesOne(before, cases, n)
    requires if n == c.name then AddedOne(after, before, c) else Unchanged(after, before, n)
    ensures DescribesOne(after, cases + [c], n)
  {
    TakeOut(cases + [c], |cases|, n);
    assert Without(cases + [c], |cases|) == cases;
    if n in before.failed {
      FirstFailureStays(cases, c, n, before.failed[n].first);
    } else if n == c.name && |c.failures| > 0 {
      FirstFailureNow(cases, c);
    }
  }

  method Aggregate<N(==,!new)>(cases: seq<Case<N>>) returns (t: Tally<N>)
    ensures Describes(t, cases)
  {
    t := Tally(map[], map[], map[]);
    for i := 0 to |cases|
      invariant Describes(t, cases[..i])
    {
      var after := AddCase(t, cases[i]);
      ghost var upTo := cases[..i + 1];
      forall n: N
        ensures DescribesOne(after, upTo, n)
      {
        StepDescribes(t, after, cases[..i], cases[i], n);
        assert upTo == cases[..i] + [cases[i]];
      }
      t := after;
    }
    assert cases[..|cases|] == cases;
  }

  // ----- one row per test ---------------------------------------------------------

  ghost predicate RowSays<N>(cases: seq<Case<N>>, row: Row<N>) {
    && row.status == StatusOf(cases, row.test)
    && row.runs == Runs(cases, row.test) && row.fails == Fails(cases, row.test)
    && (row.status.Failed? ==> exists f :: IsFirstFailure(cases, row.test, f) && row.message == f.message)
    && (!row.status.Failed? ==> row.message == "")
  }

  /** As many rows as tests, a row for every test of `names`, every row saying what the
      passes say: so exactly one row per test. */
  ghost predicate RowsFor<N>(cases: seq<Case<N>>, rows: seq<Row<N>>, names: set<N>) {
    && |rows| == |names|
    && (forall row :: row in rows ==> row.test in names && RowSays(cases, row))
    && (forall n :: n in names ==> HasRow(rows, n))
  }

  ghost predicate HasRow<N>(rows: seq<Row<N>>, n: N) {
    exists row :: row in rows && row.test == n
  }

  lemma HasRowMore<N>(rows: seq<Row<N>>, row: Row<N>, n: N)
    requires HasRow(rows, n) || row.test == n
    ensures HasRow(rows + [row], n)
  {
    var r :| (r in rows || r == row) && r.test == n;
    assert r in rows + [row];
  }

  lemma RowsMore<N>(cases: seq<Case<N>>, rows: seq<Row<N>>, names: set<N>, row: Row<N>)
    requires RowsFor(cases, rows, names) && row.test !in names && RowSays(cases, row)
    ensures RowsFor(cases, rows + [row], names + {row.test})
  {
    forall n | n in names + {row.test}
      ensures HasRow(rows + [row], n)
    {
      HasRowMore(rows, row, n);
    }
  }

  /** Where the rows stand does not matter. */
  lemma RowsReordered<N>(cases: seq<Case<N>>, rows: seq<Row<N>>, moved: seq<Row<N>>, names: set<N>)
    requires RowsFor(cases, rows, names) && multiset(moved) == multiset(rows)
    ensures RowsFor(cases, moved, names)
  {
    assert |moved| == |multiset(moved)| == |multiset(rows)| == |rows|;
    assert forall row :: row in moved <==> row in multiset(moved);
    assert forall row :: row in rows <==> row in multiset(rows);
    forall n | n in names
      ensures HasRow(moved, n)
    {
      assert HasRow(rows, n);
      var row :| row in rows && row.test == n;
      assert row in moved;
    }
  }

  function RowOf<N(==)>(t: Tally<N>, notrun: set<N>, n: N): (r: Row<N>)
    requires n in t.runs
    ensures r.test == n
  {
    if n in t.failed then Row(n, Failed, t.runs[n], t.failed[n].fails, t.failed[n].first.message)
    else Row(n, if n in notrun then Notrun else Passed, t.runs[n], 0, "")
  }

  lemma RowOfSays<N(!new)>(cases: seq<Case<N>>, t: Tally<N>, notrun: set<N>, n: N)
    requires Describes(t, cases) && notrun == WithStatus(cases, Notrun) && n in t.runs
    ensures RowSays(cases, RowOf(t, notrun, n)) && t.runs[n] == Runs(cases, n)
  {
    assert DescribesOne(t, cases, n);
    RunsMeaning(cases, n);
  }

  /** The largest number of passes any of these tests has, 0 for none. */
  ghost predicate IsLongest<N>(cases: seq<Case<N>>, names: set<N>, longest: nat) {
    && (forall n :: n in names ==> Runs(cases, n) <= longest)
    && (longest == 0 || exists n :: n in names && Runs(cases, n) == longest)
  }

  lemma LongestMore<N>(cases: seq<Case<N>>, names: set<N>, longest: nat, n: N)
    requires IsLongest(cases, names, longest)
    ensures IsLongest(cases, names + {n}, if Runs(cases, n) > longest then Runs(cases, n) else longest)
  {
    if longest != 0 {
      var m :| m in names && Runs(cases, m) == longest;
      assert m in names + {n};
    }
    assert n in names + {n};
  }

  /** The rows so far are those of the tests no longer to do. */
  ghost predicate BuiltBut<N>(cases: seq<Case<N>>, names: set<N>, todo: set<N>, rows: seq<Row<N>>, longest: nat) {
    todo <= names && RowsFor(cases, rows, names - todo) && IsLongest(cases, names - todo, longest)
  }

  lemma NothingBuilt<N>(cases: seq<Case<N>>, names: set<N>)
    ensures BuiltBut(cases, names, names, [], 0)
  {
    assert names - names == {};
  }

  lemma AllBuilt<N>(cases: seq<Case<N>>, names: set<N>, rows: seq<Row<N>>, longest: nat)
    requires BuiltBut(cases, names, {}, rows, longest)
    ensures RowsFor(cases, rows, names) && IsLongest(cases, names, longest)
  {
    assert names - {} == names;
  }

  lemma OneMoreRow<N(!new)>(cases: seq<Case<N>>, t: Tally<N>, notrun: set<N>, todo: set<N>, rows: seq<Row<N>>, longest: nat, n: N)
    requires Describes(t, cases) && notrun == WithStatus(cases, Notrun)
    requires n in todo && BuiltBut(cases, t.runs.Keys, todo, rows, longest)
    ensures BuiltBut(cases, t.runs.Keys, todo - {n}, rows + [RowOf(t, notrun, n)],
                     if t.runs[n] > longest then t.runs[n] else longest)
  {
    var names := t.runs.Keys;
    assert names - (todo - {n}) == (names - todo) + {n};
    hide RowsFor, IsLongest, RowSays, Runs, RowOf, WithStatus, Describes;
    RowOfSays(cases, t, notrun, n);
    RowsMore(cases, rows, names - todo, RowOf(t, notrun, n));
    LongestMore(cases, names - todo, longest, n);
  }

  method BuildRows<N(==,!new)>(ghost cases: seq<Case<N>>, t: Tally<N>, notrun: set<N>) returns (rows: seq<Row<N>>, iterations: nat)
    requires Describes(t, cases) && notrun == WithStatus(cases, Notrun)
    ensures RowsFor(cases, rows, t.runs.Keys) && IsLongest(cases, t.runs.Keys, iterations)
  {
    rows, iterations := [], 0;
    var todo := t.runs.Keys;
    hide *;
    NothingBuilt(cases, todo);
    while todo != {}
      invariant todo <= t.runs.Keys && BuiltBut(cases, t.runs.Keys, todo, rows, iterations)
      decreases todo
    {
      var n :| n in todo;
      OneMoreRow(cases, t, notrun, todo, rows, iterations, n);
      rows := rows + [RowOf(t, notrun, n)];
      iterations := if t.runs[n] > iterations then t.runs[n] else iterations;
      todo := todo - {n};
    }
    AllBuilt(cases, t.runs.Keys, rows, iterations);
  }

  // ----- sorting the rows ---------------------------------------------------------

  function Rank(s: Status): nat {
    match s
    case Failed => 0
    case Notrun => 1
    case Passed => 2
  }

  /** Python's order on strings. */
  predicate NameLeq(a: string, b: string) {
    |a| == 0 || (|b| > 0 && (a[0] < b[0] || (a[0] == b[0] && NameLeq(a[1..], b[1..]))))
  }

  predicate RowLeq(a: Row<string>, b: Row<string>) {
    Rank(a.status) < Rank(b.status) || (a.status == b.status && NameLeq(a.test, b.test))
  }

  lemma {:induction false} NameOrderTotal(a: string, b: string)
    ensures NameLeq(a, b) || NameLeq(b, a)
  {
    if |a| > 0 && |b| > 0 {
      NameOrderTotal(a[1..], b[1..]);
    }
  }

  lemma {:induction false} NameOrderTransitive(a: string, b: string, c: string)
    requires NameLeq(a, b) && NameLeq(b, c)
    ensures NameLeq(a, c)
  {
    if |a| > 0 && a[0] == b[0] == c[0] {
      NameOrderTransitive(a[1..], b[1..], c[1..]);
    }
  }

  lemma RowOrderTotal(a: Row<string>, b: Row<string>)
    ensures RowLeq(a, b) || RowLeq(b, a)
  {
    NameOrderTotal(a.test, b.test);
  }

  lemma RowOrderTransitive(a: Row<string>, b: Row<string>, c: Row<string>)
    requires RowLeq(a, b) && RowLeq(b, c)
    ensures RowLeq(a, c)
  {
    if a.status == b.status == c.status {
      NameOrderTransitive(a.test, b.test, c.test);
    }
  }

  predicate Sorted(rows: seq<Row<string>>) {
    forall i, j :: 0 <= i < j < |rows| ==> RowLeq(rows[i], rows[j])
  }

  /** Where `list.sort` puts one more row among rows already in order. */
  method PlaceFor(rows: seq<Row<string>>, row: Row<string>) returns (k: nat)
    requires Sorted(rows)
    ensures k <= |rows|
    ensures forall i :: 0 <= i < k ==> RowLeq(rows[i], row)
    ensures forall i :: k <= i < |rows| ==> RowLeq(row, rows[i])
  {
    k := 0;
    while k < |rows| && RowLeq(rows[k], row)
      invariant 0 <= k <= |rows|
      invariant forall i :: 0 <= i < k ==> RowLeq(rows[i], row)
    {
      k := k + 1;
    }
    if k < |rows| {
      RowOrderTotal(rows[k], row);
      forall i | k < i < |rows|
        ensures RowLeq(row, rows[i])
      {
        RowOrderTransitive(row, rows[k], rows[i]);
      }
    }
  }

  /** `list.sort`, row by row. */
  method Sort(rows: seq<Row<string>>) returns (sorted: seq<Row<string>>)
    ensures multiset(sorted) == multiset(rows) && Sorted(sorted)
  {
    sorted := [];
    for i := 0 to |rows|
      invariant multiset(sorted) == multiset(rows[..i]) && Sorted(sorted)
    {
      var k := PlaceFor(sorted, rows[i]);
      InsertKeepsOrder(sorted, k, rows[i]);
      assert sorted == sorted[..k] + sorted[k..];
      assert rows[..i + 1] == rows[..i] + [rows[i]];
      sorted := sorted[..k] + [rows[i]] + sorted[k..];
    }
    assert rows[..|rows|] == rows;
  }

  lemma InsertKeepsOrder(rows: seq<Row<string>>, k: nat, row: Row<string>)
    requires Sorted(rows) && k <= |rows|
    requires forall i :: 0 <= i < k ==> RowLeq(rows[i], row)
    requires forall i :: k <= i < |rows| ==> RowLeq(row, rows[i])
    ensures Sorted(rows[..k] + [row] + rows[k..])
  {
    var r := rows[..k] + [row] + rows[k..];
    forall i, j | 0 <= i < j < |r|
      ensures RowLeq(r[i], r[j])
    {
      assert r[i] == if i < k then rows[i] else if i == k then row else rows[i - 1];
      assert r[j] == if j < k then rows[j] else if j == k then row else rows[j - 1];
    }
  }

  // ----- the report ---------------------------------------------------------------

  lemma CountsPartition<N>(cases: seq<Case<N>>)
    ensures |Names(cases)| == |WithStatus(cases, Failed)| + |WithStatus(cases, Notrun)| + |WithStatus(cases, Passed)|
  {
    var f, s, p := WithStatus(cases, Failed), WithStatus(cases, Notrun), WithStatus(cases, Passed);
    assert Names(cases) == f + s + p;
    assert f !! s && (f + s) !! p;
  }

  lemma TallyNames<N(!new)>(t: Tally<N>, cases: seq<Case<N>>)
    requires Describes(t, cases)
    ensures t.runs.Keys == Names(cases)
    ensures t.failed.Keys == WithStatus(cases, Failed)
    ensures forall n :: n in WithStatus(cases, Notrun) <==> n in t.runs && n !in t.failed && Count(t.skips, n) == t.runs[n]
  {
    forall n: N
      ensures n in t.runs <==> n in Names(cases)
      ensures n in t.failed <==> n in WithStatus(cases, Failed)
      ensures n in WithStatus(cases, Notrun) <==> n in t.runs && n !in t.failed && Count(t.skips, n) == t.runs[n]
    {
      assert DescribesOne(t, cases, n);
      RunsMeaning(cases, n);
      StatusMeaning(cases, n);
    }
  }

  /** The totals count each distinct test once, under its one status; the clamp at zero never
      fires; and the rows are one per test, failed first, then not run, then passed, by name. */
  method Summarise(cases: seq<Case<string>>) returns (r: Report<string>)
    ensures r.tests == |Names(cases)| == r.passed + r.failed + r.skipped
    ensures r.failed == |WithStatus(cases, Failed)| && r.skipped == |WithStatus(cases, Notrun)|
    ensures r.passed == |WithStatus(cases, Passed)|
    ensures forall n :: n in Names(cases) ==> Runs(cases, n) <= r.iterations
    ensures r.iterations == 0 || exists n :: n in Names(cases) && Runs(cases, n) == r.iterations
    ensures RowsFor(cases, r.perTest, Names(cases)) && Sorted(r.perTest)
  {
    var t := Aggregate(cases);
    TallyNames(t, cases);
    var notrun := set n | n in t.runs && n !in t.failed && Count(t.skips, n) == t.runs[n];
    assert notrun == WithStatus(cases, Notrun);
    CountsPartition(cases);
    var tests, failed, skipped := |t.runs.Keys|, |t.failed.Keys|, |notrun|;
    var passed := if tests - failed - skipped > 0 then tests - failed - skipped else 0;
    var rows, iterations := BuildRows(cases, t, notrun);
    var perTest := Sort(rows);
    RowsReordered(cases, rows, perTest, Names(cases));
    r := Report(passed, failed, skipped, tests, iterations, perTest);
  }
}
