/** `parse_ktap` of f/selftests/common.py on the lines of a journal: the flat KTAP document
    run_kselftest.sh prints, anchored on its last version header and checked against its
    plan and its closing totals. */
module SelftestsKtap {
  import opened Wrappers
  import opened Ktap
  import opened Loss
  import opened Seqs

  datatype Directive = NoDirective | SkipDirective(text: Text) | XfailDirective(text: Text) | OtherDirective(text: Text)

  /** A line as the parser reads it. `Output` is everything no expression matches, a test's
      own output with its `# ` prefix above all; that output can imitate a totals line. */
  datatype Line =
    | Header
    | Plan(count: nat)
    | Result(ok: bool, collection: Text, test: Text, directive: Directive)
    | Totals(passed: nat, failed: nat, xfail: nat, xpass: nat, skipped: nat, error: nat)
    | Output(text: Text)

  /** A test is told by its collection and its own name. */
  datatype Title = Title(collection: Text, test: Text)

  datatype Summary = Summary(
    tests: seq<Test<Title>>, passed: nat, failed: nat, skipped: nat, plan: Option<nat>, totals: Option<Line>,
    complete: bool, reportPresent: bool)

  const EMPTY := Summary([], 0, 0, 0, None, None, false, false)

  function Read(line: Line): Test<Title>
    requires line.Result?
  {
    var d := line.directive;
    var status := if d.SkipDirective? then Notrun else if line.ok then Passed else Failed;
    Test(Title(line.collection, line.test), status,
         if d.NoDirective? || (status.Passed? && !d.XfailDirective?) then NO_TEXT else d.text)
  }

  function ScanLine(s: Summary, line: Line): Summary {
    match line
    case Plan(count) => if s.plan.None? then s.(plan := Some(count)) else s
    case Totals(_, _, _, _, _, _) => s.(totals := Some(line))
    case Result(_, _, _, _) =>
      var t := Read(line);
      s.(tests := s.tests + [t],
         passed := s.passed + (if t.status.Passed? then 1 else 0),
         failed := s.failed + (if t.status.Failed? then 1 else 0),
         skipped := s.skipped + (if t.status.Notrun? then 1 else 0))
    case _ => s
  }

  function Scan(s: Summary, lines: seq<Line>): Summary
    decreases |lines|
  {
    if lines == [] then s else Scan(ScanLine(s, lines[0]), lines[1..])
  }

  function LastHeader(lines: seq<Line>): (r: Option<nat>)
    ensures r.Some? ==> r.value < |lines| && lines[r.value].Header?
    ensures forall i :: 0 <= i < |lines| && lines[i].Header? ==> r.Some? && i <= r.value
  {
    if lines == [] then None
    else if lines[|lines| - 1].Header? then Some(|lines| - 1)
    else LastHeader(lines[..|lines| - 1])
  }

  predicate TotalsAgree(s: Summary) {
    s.totals.Some? && s.totals.value.Totals? ==>
      var t := s.totals.value;
      && t.passed + t.xfail + t.xpass == s.passed
      && t.failed + t.error == s.failed
      && t.skipped == s.skipped
  }

  function Conclude(s: Summary): Summary {
    s.(complete := s.plan == Some(|s.tests|) && TotalsAgree(s))
  }

  function Parse(lines: seq<Line>): Summary {
    match LastHeader(lines)
    case None => EMPTY
    case Some(h) => Conclude(Scan(EMPTY.(reportPresent := true), lines[h + 1..]))
  }

  method ParseKtap(lines: seq<Line>) returns (summary: Summary)
    ensures summary == Parse(lines)
  {
    summary := EMPTY;
    var header := |lines| - 1;
    assert lines[..|lines|] == lines;
    while header >= 0 && !lines[header].Header?
      invariant -1 <= header < |lines|
      invariant LastHeader(lines) == LastHeader(lines[..header + 1])
    {
      assert lines[..header + 1][..header] == lines[..header];
      header := header - 1;
    }
    if header < 0 {
      return;
    }
    assert LastHeader(lines) == Some(header);
    summary := summary.(reportPresent := true);
    ghost var goal := Scan(summary, lines[header + 1..]);
    for i := header + 1 to |lines|
      invariant Scan(summary, lines[i..]) == goal
    {
      assert lines[i..][0] == lines[i] && lines[i..][1..] == lines[i + 1..];
      summary := ScanLine(summary, lines[i]);
    }
    summary := Conclude(summary);
  }

  // ----- what never matters -------------------------------------------------------

  lemma {:induction false} ScanConcat(s: Summary, a: seq<Line>, b: seq<Line>)
    ensures Scan(s, a + b) == Scan(Scan(s, a), b)
    decreases |a|
  {
    if a == [] {
      assert a + b == b;
    } else {
      assert (a + b)[0] == a[0] && (a + b)[1..] == a[1..] + b;
      ScanConcat(ScanLine(s, a[0]), a[1..], b);
    }
  }

  lemma {:induction false} LastHeaderOfPrefix(a: seq<Line>, b: seq<Line>)
    requires forall i :: 0 <= i < |b| ==> !b[i].Header?
    ensures LastHeader(a + b) == LastHeader(a)
  {
    if b == [] {
      assert a + b == a;
    } else {
      var n := |b| - 1;
      assert (a + b)[|a + b| - 1] == b[n] && (a + b)[..|a + b| - 1] == a + b[..n];
      LastHeaderOfPrefix(a, b[..n]);
    }
  }

  lemma {:induction false} LastHeaderOfSuffix(a: seq<Line>, b: seq<Line>)
    requires LastHeader(b).Some?
    ensures LastHeader(a + b) == Some(|a| + LastHeader(b).value)
  {
    var n := |b| - 1;
    assert (a + b)[|a + b| - 1] == b[n] && (a + b)[..|a + b| - 1] == a + b[..n];
    if !b[n].Header? {
      LastHeaderOfSuffix(a, b[..n]);
    }
  }

  lemma HeaderAt(before: seq<Line>, after: seq<Line>)
    requires forall i :: 0 <= i < |after| ==> !after[i].Header?
    ensures LastHeader(before + [Header] + after) == Some(|before|)
  {
    LastHeaderOfPrefix(before + [Header], after);
    assert (before + [Header])[|before|].Header?;
  }

  lemma ParsesFrom(before: seq<Line>, body: seq<Line>)
    requires forall line :: line in body ==> !line.Header?
    ensures Parse(before + [Header] + body) == Conclude(Scan(EMPTY.(reportPresent := true), body))
  {
    HeaderAt(before, body);
    DropFront(before + [Header], body, 0);
  }

  lemma NoHeaderNoReport(lines: seq<Line>)
    requires forall i :: 0 <= i < |lines| ==> !lines[i].Header?
    ensures Parse(lines) == EMPTY
  {
  }

  lemma {:induction false} ParsesAlone(before: seq<Line>, lines: seq<Line>)
    requires LastHeader(lines).Some?
    ensures Parse(before + lines) == Parse(lines)
  {
    var h := LastHeader(lines).value;
    LastHeaderOfSuffix(before, lines);
    hide LastHeader, Scan;
    DropFront(before, lines, h + 1);
    assert |before| + h + 1 == |before| + (h + 1);
  }

  /** Whatever stands before the last version header is irrelevant. */
  lemma TextBeforeIsIrrelevant(before: seq<Line>, other: seq<Line>, after: seq<Line>)
    requires forall i :: 0 <= i < |after| ==> !after[i].Header?
    ensures Parse(before + [Header] + after) == Parse(other + [Header] + after)
  {
    HeaderAt([], after);
    Regroup(before, [Header], after);
    Regroup(other, [Header], after);
    assert [] + [Header] + after == [Header] + after;
    ParsesAlone(before, [Header] + after);
    ParsesAlone(other, [Header] + after);
  }

  lemma {:induction false} TotalsOverwritten(s: Summary, t: Option<Line>, lines: seq<Line>)
    requires exists i :: 0 <= i < |lines| && lines[i].Totals?
    ensures Scan(s.(totals := t), lines) == Scan(s, lines)
    decreases |lines|
  {
    var next := ScanLine(s, lines[0]);
    if lines[0].Totals? {
      assert ScanLine(s.(totals := t), lines[0]) == next;
    } else {
      var i :| 0 <= i < |lines| && lines[i].Totals?;
      assert lines[1..][i - 1].Totals?;
      assert ScanLine(s.(totals := t), lines[0]) == next.(totals := t);
      TotalsOverwritten(next, t, lines[1..]);
    }
  }

  predicate Overridden(line: Line, b: seq<Line>) {
    line.Output? || (line.Totals? && exists i :: 0 <= i < |b| && b[i].Totals?)
  }

  lemma ScanIgnores(s: Summary, a: seq<Line>, line: Line, b: seq<Line>)
    requires Overridden(line, b)
    ensures Scan(s, a + [line] + b) == Scan(s, a + b)
  {
    assert a + [line] + b == a + ([line] + b);
    ScanConcat(s, a, [line] + b);
    ScanConcat(s, a, b);
    assert ([line] + b)[1..] == b;
    if line.Totals? {
      TotalsOverwritten(Scan(s, a), Some(line), b);
    }
  }

  lemma AfterHeader(a: seq<Line>, line: Line, b: seq<Line>, h: nat)
    requires h < |a|
    ensures (a + [line] + b)[h + 1..] == a[h + 1..] + [line] + b && (a + b)[h + 1..] == a[h + 1..] + b
  {
  }

  lemma HeaderPrecedes(a: seq<Line>, line: Line, b: seq<Line>)
    requires !line.Header? && LastHeader(b).None?
    ensures LastHeader(a + [line] + b) == LastHeader(a) == LastHeader(a + b)
  {
    assert a + [line] + b == a + ([line] + b);
    LastHeaderOfPrefix(a, [line] + b);
    LastHeaderOfPrefix(a, b);
  }

  /** A test's output never changes the parse: not an ordinary line anywhere, and not even
      an imitation of the totals, as long as real totals follow. */
  lemma OutputNeverMatters(a: seq<Line>, line: Line, b: seq<Line>)
    requires Overridden(line, b)
    ensures Parse(a + [line] + b) == Parse(a + b)
  {
    if LastHeader(b).Some? {
      ParsesAlone(a + [line], b);
      ParsesAlone(a, b);
    } else {
      HeaderPrecedes(a, line, b);
      if LastHeader(a).Some? {
        var h := LastHeader(a).value;
        AfterHeader(a, line, b, h);
        ScanIgnores(EMPTY.(reportPresent := true), a[h + 1..], line, b);
      }
    }
  }

  /** Every test is counted once. */
  lemma CountsAddUp(lines: seq<Line>)
    ensures var r := Parse(lines); r.passed + r.failed + r.skipped == |r.tests|
  {
    if LastHeader(lines).Some? {
      ScanCounts(EMPTY.(reportPresent := true), lines[LastHeader(lines).value + 1..]);
    }
  }

  lemma {:induction false} ScanCounts(s: Summary, lines: seq<Line>)
    requires s.passed + s.failed + s.skipped == |s.tests|
    ensures var r := Scan(s, lines); r.passed + r.failed + r.skipped == |r.tests|
    decreases |lines|
  {
    if lines != [] {
      ScanCounts(ScanLine(s, lines[0]), lines[1..]);
    }
  }

  // ----- a printer and its loss ---------------------------------------------------

  datatype Case = Case(output: seq<Line>, ok: bool, collection: Text, test: Text, directive: Directive)

  /** One run: its cases, each after its output, and the runner's closing totals, if any. */
  datatype Run = Run(cases: seq<Case>, totals: Option<Line>)

  function CaseLine(c: Case): Line {
    Result(c.ok, c.collection, c.test, c.directive)
  }

  function PrintCases(cases: seq<Case>): seq<Line> {
    if cases == [] then [] else cases[0].output + [CaseLine(cases[0])] + PrintCases(cases[1..])
  }

  function Tests(cases: seq<Case>): (r: seq<Test<Title>>)
    ensures |r| == |cases|
  {
    if cases == [] then [] else [Read(CaseLine(cases[0]))] + Tests(cases[1..])
  }

  /** The test a printed result line reports: SKIP decides, then the verdict; a pass keeps its
      directive only for XFAIL. */
  predicate Reports(t: Test<Title>, c: Case) {
    && t.name.collection == c.collection && t.name.test == c.test
    && (t.status.Notrun? <==> c.directive.SkipDirective?)
    && (t.status.Passed? <==> c.ok && !c.directive.SkipDirective?)
    && t.message == if c.directive.NoDirective? || (c.ok && c.directive.OtherDirective?) then NO_TEXT else c.directive.text
  }

  predicate AsPrinted(tests: seq<Test<Title>>, cases: seq<Case>) {
    |tests| == |cases| && forall i :: 0 <= i < |cases| ==> Reports(tests[i], cases[i])
  }

  lemma {:induction false} TestsAsPrinted(cases: seq<Case>)
    ensures AsPrinted(Tests(cases), cases)
  {
    if cases != [] {
      TestsAsPrinted(cases[1..]);
      assert forall i :: 0 < i < |cases| ==> Tests(cases)[i] == Tests(cases[1..])[i - 1] && cases[i] == cases[1..][i - 1];
    }
  }

  function Inside(run: Run): seq<Line> {
    [Plan(|run.cases|)] + PrintCases(run.cases) + if run.totals.Some? then [run.totals.value] else []
  }

  function Print(run: Run): seq<Line> {
    [Header] + Inside(run)
  }

  /** What a test's own output can be: no header, plan or result of the document. */
  predicate Idle(line: Line) {
    line.Output? || line.Totals?
  }

  predicate AllIdle(lines: seq<Line>) {
    forall line :: line in lines ==> Idle(line)
  }

  /** Output is prefixed, so it is no header, plan or result of the document; the closing
      totals, when printed, agree with the results. */
  predicate WellFormed(run: Run) {
    && (forall c, line :: c in run.cases && line in c.output ==> Idle(line))
    && (run.totals.Some? ==>
          var t, tests := run.totals.value, Tests(run.cases);
          && t.Totals?
          && t.passed + t.xfail + t.xpass == Count(tests, Passed)
          && t.failed + t.error == Count(tests, Failed)
          && t.skipped == Count(tests, Notrun))
  }

  /** No test imitates the totals line. */
  predicate NoImitation(run: Run) {
    forall c, line :: c in run.cases && line in c.output ==> line.Output?
  }

  function ReadResult(): Line -> Option<Test<Title>> {
    (line: Line) => if line.Result? then Some(Read(line)) else None
  }

  /** The tests of the result lines, in order. */
  function Results(lines: seq<Line>): seq<Test<Title>> {
    Collect(lines, ReadResult())
  }

  predicate Tallied(s: Summary) {
    s.passed == Count(s.tests, Passed) && s.failed == Count(s.tests, Failed) && s.skipped == Count(s.tests, Notrun)
  }

  lemma LineTallied(s: Summary, line: Line)
    requires Tallied(s)
    ensures Tallied(ScanLine(s, line))
  {
    if line.Result? {
      CountAppend(s.tests, Read(line), Passed);
      CountAppend(s.tests, Read(line), Failed);
      CountAppend(s.tests, Read(line), Notrun);
    }
  }

  ghost predicate Collected(s: Summary, lines: seq<Line>, count: nat, r: Summary) {
    && r.tests == s.tests + Results(lines)
    && Tallied(r) && r.reportPresent == s.reportPresent
    && (r.plan.Some? ==> r.plan.value == count)
    && (s.plan.Some? || Plan(count) in lines ==> r.plan.Some?)
  }

  lemma CollectedOneMore(s: Summary, line: Line, rest: seq<Line>, count: nat, r: Summary)
    requires line.Plan? ==> line.count == count
    requires Collected(ScanLine(s, line), rest, count, r)
    ensures Collected(s, [line] + rest, count, r)
  {
    assert ([line] + rest)[1..] == rest;
    assert Plan(count) in [line] + rest ==> line == Plan(count) || Plan(count) in rest;
  }

  /** A scan collects exactly the results, and a plan only from a plan line. */
  lemma {:induction false} ScanCollects(s: Summary, lines: seq<Line>, count: nat)
    requires Tallied(s) && (s.plan.Some? ==> s.plan.value == count)
    requires forall line :: line in lines && line.Plan? ==> line.count == count
    ensures Collected(s, lines, count, Scan(s, lines))
    decreases |lines|
  {
    if lines != [] {
      var line, rest := lines[0], lines[1..];
      assert line in lines;
      LineTallied(s, line);
      ScanCollects(ScanLine(s, line), rest, count);
      CollectedOneMore(s, line, rest, count, Scan(s, lines));
      assert lines == [line] + rest;
    }
  }

  lemma OutputHasNoResults(lines: seq<Line>)
    requires AllIdle(lines)
    ensures Results(lines) == []
  {
    assert forall i :: 0 <= i < |lines| ==> lines[i] in lines;
    CollectNothing(lines, ReadResult());
  }

  lemma {:induction false} CasesResults(cases: seq<Case>)
    requires forall c, line :: c in cases && line in c.output ==> Idle(line)
    ensures Results(PrintCases(cases)) == Tests(cases)
    ensures forall line :: line in PrintCases(cases) ==> Idle(line) || line.Result?
  {
    if cases != [] {
      var c, rest := cases[0], PrintCases(cases[1..]);
      assert c in cases;
      CasesResults(cases[1..]);
      OutputHasNoResults(c.output);
      CollectConcat(c.output + [CaseLine(c)], rest, ReadResult());
      CollectConcat(c.output, [CaseLine(c)], ReadResult());
      assert Results([CaseLine(c)]) == [Read(CaseLine(c))];
    }
  }

  lemma {:induction false} InsideResults(run: Run)
    requires WellFormed(run)
    ensures Results(Inside(run)) == Tests(run.cases)
  {
    var plan, body, totals := [Plan(|run.cases|)], PrintCases(run.cases), if run.totals.Some? then [run.totals.value] else [];
    CasesResults(run.cases);
    CollectNothing(plan, ReadResult());
    CollectNothing(totals, ReadResult());
    hide Collect, PrintCases, Tests, WellFormed;
    CollectConcat(plan, body, ReadResult());
    CollectConcat(plan + body, totals, ReadResult());
  }

  lemma {:induction false} InsideLines(run: Run)
    requires WellFormed(run)
    ensures forall line :: line in Inside(run) ==> !line.Header? && (line.Plan? ==> line.count == |run.cases|)
    ensures Plan(|run.cases|) in Inside(run)
  {
    var body, totals := PrintCases(run.cases), if run.totals.Some? then [run.totals.value] else [];
    CasesResults(run.cases);
    hide PrintCases, Tests, Results;
    ThreeParts(Plan(|run.cases|), body, totals);
  }

  lemma ThreeParts<T>(first: T, body: seq<T>, last: seq<T>)
    ensures first in [first] + body + last
    ensures forall x :: x in [first] + body + last ==> x == first || x in body || x in last
  {
    assert ([first] + body + last)[0] == first;
  }

  lemma {:induction false} TotalsUnseen(s: Summary, lines: seq<Line>)
    requires forall i :: 0 <= i < |lines| ==> !lines[i].Totals?
    ensures Scan(s, lines).totals == s.totals
    decreases |lines|
  {
    if lines != [] {
      TotalsUnseen(ScanLine(s, lines[0]), lines[1..]);
    }
  }

  /** Reading a printed run gives back exactly its tests, complete, when the runner printed
      its totals or no test imitated them. */
  lemma RoundTrip(before: seq<Line>, run: Run)
    requires WellFormed(run) && (run.totals.Some? || NoImitation(run))
    ensures var r := Parse(before + Print(run));
            && r.complete && r.reportPresent && r.tests == Tests(run.cases) && AsPrinted(r.tests, run.cases) && Tallied(r)
  {
    TestsAsPrinted(run.cases);
    hide AsPrinted;
    InsideResults(run);
    InsideLines(run);
    var inside, start := Inside(run), EMPTY.(reportPresent := true);
    assert before + Print(run) == before + [Header] + inside;
    ParsesFrom(before, inside);
    ScanCollects(start, inside, |run.cases|);
    ScanFindsTotals(start, run);
    var r := Scan(start, inside);
    assert r.tests == Tests(run.cases) && r.plan == Some(|r.tests|);
    assert r.totals.Some? ==> r.totals == run.totals;
    assert TotalsAgree(r);
  }

  lemma ScanFindsTotals(s: Summary, run: Run)
    requires WellFormed(run) && (run.totals.Some? || NoImitation(run))
    requires s.totals == None
    ensures Scan(s, Inside(run)).totals == run.totals
  {
    if run.totals.Some? {
      var body, last := [Plan(|run.cases|)] + PrintCases(run.cases), [run.totals.value];
      assert Inside(run) == body + last;
      ScanConcat(s, body, last);
      assert Scan(Scan(s, body), last) == Scan(ScanLine(Scan(s, body), last[0]), []);
    } else {
      NoImitationNoTotals(run.cases);
      assert forall line :: line in Inside(run) ==> !line.Totals?;
      TotalsUnseen(s, Inside(run));
    }
  }

  lemma {:induction false} NoImitationNoTotals(cases: seq<Case>)
    requires forall c, line :: c in cases && line in c.output ==> line.Output?
    ensures forall line :: line in PrintCases(cases) ==> !line.Totals?
  {
    if cases != [] {
      var c := cases[0];
      assert c in cases;
      NoImitationNoTotals(cases[1..]);
      forall line | line in PrintCases(cases)
        ensures !line.Totals?
      {
        if line in c.output {
          assert line.Output?;
        } else {
          assert line == CaseLine(c) || line in PrintCases(cases[1..]);
        }
      }
    }
  }

  /** What loss leaves of a text: some of what came before, perhaps the header, some of the
      run, some of what comes after. */
  lemma {:induction false} SplitSurvivors(before: seq<Line>, run: Run, after: seq<Line>, kept: seq<bool>)
    returns (b: seq<Line>, top: seq<Line>, k: seq<bool>)
    requires |kept| == |before| + |Print(run)| + |after|
    ensures |k| == |Inside(run)| && (forall line :: line in b ==> line in before)
    ensures top == if kept[|before|] then [Header] else []
    ensures Survivors(before + Print(run) + after, kept)
         == b + top + (Survivors(Inside(run), k) + Survivors(after, kept[|before| + |Print(run)|..]))
  {
    var k1 := kept[|before|..];
    var k2 := k1[1..];
    assert before + Print(run) + after == before + ([Header] + (Inside(run) + after));
    SurvivorsConcat(before, [Header] + (Inside(run) + after), kept);
    SurvivorsConcat([Header], Inside(run) + after, k1);
    SurvivorsConcat(Inside(run), after, k2);
    assert k2[|Inside(run)|..] == kept[|before| + |Print(run)|..];
    k := k2[..|Inside(run)|];
    b, top := Survivors(before, kept[..|before|]), Survivors([Header], k1[..1]);
    Regroup(b, top, Survivors(Inside(run), k) + Survivors(after, k2[|Inside(run)|..]));
  }

  /** The header of the run survives, and nothing after the run but what no test, plan or
      header is read from: a cut journal, or one that lost lines inside. */
  ghost predicate LastAnchor(before: seq<Line>, run: Run, after: seq<Line>, kept: seq<bool>)
    requires |kept| == |before| + |Print(run)| + |after|
  {
    kept[|before|] && AllIdle(Survivors(after, kept[|before| + |Print(run)|..]))
  }

  /** From a header that no other follows, the parser reads what survives of its run. */
  lemma {:induction false} ReadsOwnRun(b: seq<Line>, run: Run, k: seq<bool>, end: seq<Line>)
    requires WellFormed(run) && |k| == |Inside(run)| && AllIdle(end)
    requires Parse(b + [Header] + (Survivors(Inside(run), k) + end)).complete
    ensures var r := Parse(b + [Header] + (Survivors(Inside(run), k) + end)); r.tests == Tests(run.cases) && Tallied(r)
  {
    var inside := Survivors(Inside(run), k);
    InsideResults(run);
    InsideLines(run);
    MembersOfConcat(inside, end);
    OutputHasNoResults(end);
    FullCountIsEverything(Inside(run), k, ReadResult());
    assert forall line :: line in inside + end && line.Plan? ==> line.count == |run.cases|;
    hide Survivors, Parse, Inside, Tests, Scan, Collect, WellFormed;
    CollectConcat(inside, end, ReadResult());
    ParsesFrom(b, inside + end);
    ScanCollects(EMPTY.(reportPresent := true), inside + end, |run.cases|);
    assert Results(inside + end) == Results(inside);
  }

  lemma {:induction false} AnchoredLoss(before: seq<Line>, run: Run, after: seq<Line>, kept: seq<bool>)
    requires WellFormed(run) && |kept| == |before| + |Print(run)| + |after|
    requires LastAnchor(before, run, after, kept)
    requires Parse(Survivors(before + Print(run) + after, kept)).complete
    ensures var r := Parse(Survivors(before + Print(run) + after, kept)); r.tests == Tests(run.cases) && Tallied(r)
  {
    var b, top, k := SplitSurvivors(before, run, after, kept);
    var end := Survivors(after, kept[|before| + |Print(run)|..]);
    assert AllIdle(end);
    hide *;
    ReadsOwnRun(b, run, k, end);
  }

  lemma NothingAfter(before: seq<Line>, run: Run, kept: seq<bool>)
    requires |kept| == |before| + |Print(run)| && kept[|before|]
    ensures LastAnchor(before, run, [], kept)
  {
  }

  lemma {:induction false} UnanchoredLoss(before: seq<Line>, run: Run, kept: seq<bool>)
    requires WellFormed(run) && |kept| == |before| + |Print(run)| && !kept[|before|]
    requires forall line :: line in before ==> !line.Header?
    ensures !Parse(Survivors(before + Print(run) + [], kept)).complete
  {
    var b, top, k := SplitSurvivors(before, run, [], kept);
    InsideLines(run);
    NoHeaderNoReport(b + top + (Survivors(Inside(run), k) + []));
  }

  /** Lose any lines at all of a text that may hold any number of runs: what still reads as
      complete is every test of the last run whose header survives, with its printed status,
      imitated totals or not. */
  lemma {:induction false} LossNeverReadsComplete(before: seq<Line>, run: Run, after: seq<Line>, kept: seq<bool>)
    requires WellFormed(run) && |kept| == |before| + |Print(run)| + |after|
    requires LastAnchor(before, run, after, kept) || ((forall line :: line in before ==> !line.Header?) && after == [])
    requires Parse(Survivors(before + Print(run) + after, kept)).complete
    ensures var r := Parse(Survivors(before + Print(run) + after, kept));
            r.tests == Tests(run.cases) && AsPrinted(r.tests, run.cases) && Tallied(r)
  {
    TestsAsPrinted(run.cases);
    if kept[|before|] && after == [] {
      NothingAfter(before, run, kept);
    }
    hide *;
    if LastAnchor(before, run, after, kept) {
      AnchoredLoss(before, run, after, kept);
    } else {
      UnanchoredLoss(before, run, kept);
    }
  }

  /** Cut a text of any number of runs anywhere: what reads as complete is the full test list
      of the last run whose header stands before the cut. */
  lemma {:induction false} TruncationNeverReadsComplete(before: seq<Line>, run: Run, after: seq<Line>, n: nat)
    requires WellFormed(run) && |before| < n <= |before| + |Print(run)| + |after|
    requires AllIdle(after[..Beyond(|before| + |Print(run)|, n)])
    requires Parse((before + Print(run) + after)[..n]).complete
    ensures Parse((before + Print(run) + after)[..n]).tests == Tests(run.cases)
  {
    var text, p := before + Print(run) + after, |before| + |Print(run)|;
    hide Parse, Survivors, WellFormed, Tests;
    CutSurvives(text, n);
    CutSurvives(after, Beyond(p, n));
    CutKeeps(|text|, p, n);
    LossNeverReadsComplete(before, run, after, FirstKept(n, |text|));
  }
}
