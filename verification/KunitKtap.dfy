/** `parse_ktap` of f/kunit/common.py on the lines of a journal: a suite's nested KTAP
    block, anchored on its last header and checked against its plan and its stats line.
    (KTAP version 1, Documentation/dev-tools/ktap.rst, "Plan lines", "Test case result
    lines", "Nested tests".) */
module KunitKtap {
  import opened Wrappers
  import opened Ktap
  import opened Loss
  import opened Seqs

  datatype Directive = NoDirective | SkipDirective(text: Text) | OtherDirective(text: Text)

  /** A line as the four regular expressions of the parser read it. */
  datatype Line =
    | Header(indent: nat, name: Text)
    | Plan(indent: nat, count: nat)
    | Result(indent: nat, ok: bool, name: Text, directive: Directive)
    | Stats(name: Text, passed: nat, failed: nat, skipped: nat)
    | Junk

  datatype Summary = Summary(
    tests: seq<Test<Text>>, passed: nat, failed: nat, skipped: nat, plan: Option<nat>,
    complete: bool, reportPresent: bool)

  const EMPTY := Summary([], 0, 0, 0, None, false, false)

  function Message(d: Directive): Text {
    match d
    case NoDirective => NO_TEXT
    case SkipDirective(text) => text
    case OtherDirective(text) => text
  }

  /** A SKIP directive decides, whatever the verdict. */
  function Read(line: Line): Test<Text>
    requires line.Result?
  {
    Test(line.name,
         if line.directive.SkipDirective? then Notrun else if line.ok then Passed else Failed,
         Message(line.directive))
  }

  function Record(s: Summary, line: Line): Summary
    requires line.Result?
  {
    var t := Read(line);
    s.(tests := s.tests + [t],
       passed := s.passed + (if t.status.Passed? then 1 else 0),
       failed := s.failed + (if t.status.Failed? then 1 else 0),
       skipped := s.skipped + (if t.status.Notrun? then 1 else 0))
  }

  predicate IsHeader(line: Line, suite: Text) {
    line.Header? && line.name == suite
  }

  /** Where the last header of the suite stands. */
  function LastHeader(lines: seq<Line>, suite: Text): (r: Option<nat>)
    ensures r.Some? ==> r.value < |lines| && IsHeader(lines[r.value], suite)
    ensures forall i :: 0 <= i < |lines| && IsHeader(lines[i], suite) ==> r.Some? && i <= r.value
  {
    if lines == [] then None
    else if IsHeader(lines[|lines| - 1], suite) then Some(|lines| - 1)
    else LastHeader(lines[..|lines| - 1], suite)
  }

  /** A shallower result is the outer verdict and ends the scan. */
  predicate EndsScan(line: Line, indent: nat) {
    line.Result? && line.indent < indent
  }

  function ScanLine(line: Line, indent: nat, s: Summary): Summary {
    if line.Plan? && s.plan.None? && line.indent == indent then s.(plan := Some(line.count))
    else if line.Result? && line.indent == indent then Record(s, line)
    else s
  }

  function Scan(lines: seq<Line>, indent: nat, s: Summary): Summary
    decreases |lines|
  {
    if lines == [] || EndsScan(lines[0], indent) then s
    else Scan(lines[1..], indent, ScanLine(lines[0], indent, s))
  }

  function LastStats(lines: seq<Line>, suite: Text): (r: Option<Line>)
    ensures r.Some? ==> r.value in lines && r.value.Stats? && r.value.name == suite
  {
    if lines == [] then None
    else
      var line := lines[|lines| - 1];
      if line.Stats? && line.name == suite then Some(line) else LastStats(lines[..|lines| - 1], suite)
  }

  predicate StatsAgree(stats: Option<Line>, s: Summary) {
    stats.Some? && stats.value.Stats? ==>
      stats.value.passed == s.passed && stats.value.failed == s.failed && stats.value.skipped == s.skipped
  }

  function Parse(lines: seq<Line>, suite: Text): Summary {
    match LastHeader(lines, suite)
    case None => EMPTY
    case Some(h) =>
      var s := Scan(lines[h + 1..], lines[h].indent, EMPTY.(reportPresent := true));
      s.(complete := s.plan == Some(|s.tests|) && StatsAgree(LastStats(lines[h + 1..], suite), s))
  }

  method FindHeader(lines: seq<Line>, suite: Text) returns (found: Option<nat>)
    ensures found == LastHeader(lines, suite)
  {
    var i := |lines|;
    assert lines[..|lines|] == lines;
    while i > 0
      invariant 0 <= i <= |lines|
      invariant LastHeader(lines, suite) == LastHeader(lines[..i], suite)
    {
      assert lines[..i][..i - 1] == lines[..i - 1];
      i := i - 1;
      if IsHeader(lines[i], suite) {
        return Some(i);
      }
    }
    return None;
  }

  method FindStats(lines: seq<Line>, suite: Text) returns (found: Option<Line>)
    ensures found == LastStats(lines, suite)
  {
    var i := |lines|;
    assert lines[..|lines|] == lines;
    while i > 0
      invariant 0 <= i <= |lines|
      invariant LastStats(lines, suite) == LastStats(lines[..i], suite)
    {
      assert lines[..i][..i - 1] == lines[..i - 1];
      i := i - 1;
      if lines[i].Stats? && lines[i].name == suite {
        return Some(lines[i]);
      }
    }
    return None;
  }

  method ParseKtap(lines: seq<Line>, suite: Text) returns (summary: Summary)
    ensures summary == Parse(lines, suite)
  {
    summary := EMPTY;
    var header := FindHeader(lines, suite);
    if header.None? {
      return;
    }
    summary := summary.(reportPresent := true);
    var indent, body := lines[header.value].indent, lines[header.value + 1..];
    ghost var goal := Scan(body, indent, summary);
    var i := 0;
    while i < |body|
      invariant 0 <= i <= |body|
      invariant Scan(body[i..], indent, summary) == goal
    {
      var line := body[i];
      assert body[i..][0] == line && body[i..][1..] == body[i + 1..];
      if EndsScan(line, indent) {
        break;
      }
      summary := ScanLine(line, indent, summary);
      i := i + 1;
    }
    var stats := FindStats(body, suite);
    summary := summary.(complete := summary.plan == Some(|summary.tests|) && StatsAgree(stats, summary));
  }

  // ----- a printer ----------------------------------------------------------------

  /** A case's result line, after whatever the case printed. */
  datatype Case = Case(noise: seq<Line>, ok: bool, name: Text, directive: Directive)

  datatype Suite = Suite(
    name: Text, indent: nat, intro: seq<Line>, cases: seq<Case>, outro: seq<Line>,
    stats: bool, verdictIndent: nat, ok: bool)

  function CaseLine(c: Case, indent: nat): Line {
    Result(indent, c.ok, c.name, c.directive)
  }

  function PrintCases(cases: seq<Case>, indent: nat): seq<Line> {
    if cases == [] then []
    else cases[0].noise + [CaseLine(cases[0], indent)] + PrintCases(cases[1..], indent)
  }

  function Tests(cases: seq<Case>): (r: seq<Test<Text>>)
    ensures |r| == |cases|
  {
    if cases == [] then [] else [Read(CaseLine(cases[0], 0))] + Tests(cases[1..])
  }

  /** The test a printed result line reports: SKIP decides, then the verdict. */
  predicate Reports(t: Test<Text>, c: Case) {
    && t.name == c.name
    && (t.status.Notrun? <==> c.directive.SkipDirective?)
    && (t.status.Passed? <==> c.ok && !c.directive.SkipDirective?)
    && (c.directive.NoDirective? ==> t.message == NO_TEXT)
    && (c.directive.SkipDirective? || c.directive.OtherDirective? ==> t.message == c.directive.text)
  }

  predicate AsPrinted(tests: seq<Test<Text>>, cases: seq<Case>) {
    |tests| == |cases| && forall i :: 0 <= i < |cases| ==> Reports(tests[i], cases[i])
  }

  lemma {:induction false} TestsAsPrinted(cases: seq<Case>)
    ensures AsPrinted(Tests(cases), cases)
  {
    if cases != [] {
      TestsAsPrinted(cases[1..]);
      assert forall i :: 0 < i < |cases| ==> Tests(cases)[i] == Tests(cases[1..])[i - 1] && cases[i] == cases[1..][i - 1];
    }
  }

  function StatsLine(s: Suite): Line {
    var t := Tests(s.cases);
    Stats(s.name, Count(t, Passed), Count(t, Failed), Count(t, Notrun))
  }

  /** What stands between a suite's header and its verdict. */
  function Inside(s: Suite): seq<Line> {
    s.intro + [Plan(s.indent, |s.cases|)] + PrintCases(s.cases, s.indent) + s.outro
    + if s.stats then [StatsLine(s)] else []
  }

  function Print(s: Suite): seq<Line> {
    [Header(s.indent, s.name)] + Inside(s) + [Result(s.verdictIndent, s.ok, s.name, NoDirective)]
  }

  /** Nested output: plans and results are deeper than the suite's, stats are another's, and
      a header may stand at any indent. */
  predicate Nested(s: Suite, line: Line) {
    match line
    case Header(_, _) => true
    case Plan(i, _) => i > s.indent
    case Result(i, _, _, _) => i > s.indent
    case Stats(name, _, _, _) => name != s.name
    case Junk => true
  }

  predicate WellFormed(s: Suite) {
    && s.verdictIndent < s.indent
    && (forall line :: line in s.intro ==> Nested(s, line))
    && (forall line :: line in s.outro ==> Nested(s, line))
    && (forall c, line :: c in s.cases && line in c.noise ==> Nested(s, line))
  }

  /** No nested header bears the suite's own name, as a parameterised case called like its
      suite would print. */
  predicate NoNamesake(s: Suite, lines: seq<Line>) {
    forall line :: line in lines ==> !IsHeader(line, s.name)
  }

  // ----- reading what is inside a block -------------------------------------------

  predicate AtIndent(indent: nat, line: Line) {
    line.Result? && line.indent == indent
  }

  function ReadAt(indent: nat): Line -> Option<Test<Text>> {
    line => if AtIndent(indent, line) then Some(Read(line)) else None
  }

  /** The tests whose result lines stand at this indent, in order. */
  function ResultsAt(lines: seq<Line>, indent: nat): seq<Test<Text>> {
    Collect(lines, ReadAt(indent))
  }

  /** Nothing that would end the scan, and every plan at this indent says `count`. */
  predicate Within(lines: seq<Line>, indent: nat, count: nat) {
    forall line :: line in lines ==>
      (line.Result? ==> line.indent >= indent) && (line.Plan? && line.indent == indent ==> line.count == count)
  }

  predicate Tallied(s: Summary) {
    s.passed == Count(s.tests, Passed) && s.failed == Count(s.tests, Failed) && s.skipped == Count(s.tests, Notrun)
  }

  lemma RecordTallied(s: Summary, line: Line)
    requires line.Result? && Tallied(s)
    ensures Tallied(Record(s, line))
  {
    CountAppend(s.tests, Read(line), Passed);
    CountAppend(s.tests, Read(line), Failed);
    CountAppend(s.tests, Read(line), Notrun);
  }

  /** Scanning a block and then `end` collects exactly the results at the block's indent. */
  ghost predicate Scanned(lines: seq<Line>, indent: nat, count: nat, s: Summary, r: Summary) {
    && r.tests == s.tests + ResultsAt(lines, indent)
    && Tallied(r)
    && r.reportPresent == s.reportPresent
    && (r.plan.Some? ==> r.plan.value == count)
    && (r.plan.Some? <== Plan(indent, count) in lines || s.plan.Some?)
  }

  lemma ScannedOneMore(line: Line, rest: seq<Line>, indent: nat, count: nat, s: Summary, r: Summary)
    requires line.Plan? && line.indent == indent ==> line.count == count
    requires Scanned(rest, indent, count, ScanLine(line, indent, s), r)
    ensures Scanned([line] + rest, indent, count, s, r)
  {
    var lines := [line] + rest;
    assert lines[1..] == rest;
    assert Plan(indent, count) in lines ==> line == Plan(indent, count) || Plan(indent, count) in rest;
  }

  lemma ScanLineKeeps(line: Line, indent: nat, count: nat, s: Summary)
    requires line.Plan? && line.indent == indent ==> line.count == count
    requires Tallied(s) && (s.plan.Some? ==> s.plan.value == count)
    ensures Tallied(ScanLine(line, indent, s))
    ensures ScanLine(line, indent, s).plan.Some? ==> ScanLine(line, indent, s).plan.value == count
  {
    if line.Result? {
      RecordTallied(s, line);
    }
  }

  lemma {:induction false} ScanWithin(lines: seq<Line>, end: seq<Line>, indent: nat, count: nat, s: Summary)
    requires Within(lines, indent, count) && Tallied(s)
    requires s.plan.Some? ==> s.plan.value == count
    requires end == [] || EndsScan(end[0], indent)
    ensures Scanned(lines, indent, count, s, Scan(lines + end, indent, s))
    decreases |lines|
  {
    if lines == [] {
      assert lines + end == end;
    } else {
      var line, rest := lines[0], lines[1..];
      assert line in lines && forall l :: l in rest ==> l in lines;
      assert (lines + end)[0] == line && (lines + end)[1..] == rest + end;
      ScanLineKeeps(line, indent, count, s);
      ScanWithin(rest, end, indent, count, ScanLine(line, indent, s));
      ScannedOneMore(line, rest, indent, count, s, Scan(rest + end, indent, ScanLine(line, indent, s)));
      assert lines == [line] + rest;
    }
  }

  lemma {:induction false} NestedHasNoResults(s: Suite, lines: seq<Line>)
    requires forall line :: line in lines ==> Nested(s, line)
    ensures ResultsAt(lines, s.indent) == []
  {
    if lines != [] {
      assert lines[0] in lines;
      NestedHasNoResults(s, lines[1..]);
    }
  }

  lemma {:induction false} CasesResults(s: Suite, cases: seq<Case>)
    requires forall c, line :: c in cases && line in c.noise ==> Nested(s, line)
    ensures ResultsAt(PrintCases(cases, s.indent), s.indent) == Tests(cases)
    ensures forall line :: line in PrintCases(cases, s.indent) ==> Nested(s, line) || AtIndent(s.indent, line)
  {
    if cases != [] {
      var c, rest := cases[0], PrintCases(cases[1..], s.indent);
      CasesResults(s, cases[1..]);
      assert c in cases;
      NestedHasNoResults(s, c.noise);
      CollectConcat(c.noise + [CaseLine(c, s.indent)], rest, ReadAt(s.indent));
      CollectConcat(c.noise, [CaseLine(c, s.indent)], ReadAt(s.indent));
      assert ResultsAt([CaseLine(c, s.indent)], s.indent) == [Read(CaseLine(c, 0))];
    }
  }

  lemma SilentBefore(a: seq<Line>, b: seq<Line>, indent: nat)
    requires ResultsAt(a, indent) == []
    ensures ResultsAt(a + b, indent) == ResultsAt(b, indent)
  {
    CollectConcat(a, b, ReadAt(indent));
  }

  lemma SilentAfter(a: seq<Line>, b: seq<Line>, indent: nat)
    requires ResultsAt(b, indent) == []
    ensures ResultsAt(a + b, indent) == ResultsAt(a, indent)
  {
    CollectConcat(a, b, ReadAt(indent));
  }

  lemma InsideResults(s: Suite)
    requires WellFormed(s)
    ensures ResultsAt(Inside(s), s.indent) == Tests(s.cases)
  {
    var plan, body := [Plan(s.indent, |s.cases|)], PrintCases(s.cases, s.indent);
    var stats := if s.stats then [StatsLine(s)] else [];
    CasesResults(s, s.cases);
    NestedHasNoResults(s, s.intro);
    NestedHasNoResults(s, s.outro);
    CollectNothing(plan, ReadAt(s.indent));
    CollectNothing(stats, ReadAt(s.indent));
    SilentAfter(s.intro, plan, s.indent);
    SilentBefore(s.intro + plan, body, s.indent);
    SilentAfter(s.intro + plan + body, s.outro, s.indent);
    SilentAfter(s.intro + plan + body + s.outro, stats, s.indent);
  }

  lemma InsideWithin(s: Suite)
    requires WellFormed(s)
    ensures Within(Inside(s), s.indent, |s.cases|)
    ensures Plan(s.indent, |s.cases|) in Inside(s)
  {
    CasesResults(s, s.cases);
    assert Inside(s)[|s.intro|] == Plan(s.indent, |s.cases|);
    forall line | line in Inside(s)
      ensures Nested(s, line) || AtIndent(s.indent, line) || line == Plan(s.indent, |s.cases|) || line == StatsLine(s)
    {
    }
  }

  // ----- the theorems -------------------------------------------------------------

  lemma LastHeaderAt(before: seq<Line>, header: Line, after: seq<Line>, suite: Text)
    requires IsHeader(header, suite)
    ensures LastHeader(before + [header] + after, suite) == Some(|before|)
      <==> forall line :: line in after ==> !IsHeader(line, suite)
  {
    var lines := before + [header] + after;
    assert lines[|before|] == header;
    assert forall i :: 0 <= i < |after| ==> lines[|before| + 1 + i] == after[i];
    var h := LastHeader(lines, suite);
    if h != Some(|before|) {
      assert lines[h.value] == after[h.value - |before| - 1];
    }
  }

  /** The parser reads the suite's own block exactly when no nested header is a namesake. */
  lemma {:induction false} AnchoredExactly(before: seq<Line>, s: Suite)
    requires WellFormed(s)
    ensures LastHeader(before + Print(s), s.name) == Some(|before|) <==> NoNamesake(s, Inside(s))
  {
    var verdict := Result(s.verdictIndent, s.ok, s.name, NoDirective);
    var after := Inside(s) + [verdict];
    assert before + Print(s) == before + [Header(s.indent, s.name)] + after;
    LastHeaderAt(before, Header(s.indent, s.name), after, s.name);
    MembersOfConcat(Inside(s), [verdict]);
  }

  lemma LastStatsOf(before: seq<Line>, stats: Line, after: seq<Line>, suite: Text)
    requires stats.Stats? && stats.name == suite
    requires forall line :: line in after ==> !line.Stats?
    ensures LastStats(before + [stats] + after, suite) == Some(stats)
    decreases |after|
  {
    var all := before + [stats] + after;
    if after != [] {
      var shorter := after[..|after| - 1];
      assert all[|all| - 1] == after[|after| - 1];
      assert all[..|all| - 1] == before + [stats] + shorter;
      LastStatsOf(before, stats, shorter, suite);
    } else {
      assert all[|all| - 1] == stats;
    }
  }

  lemma {:induction false} NoStats(lines: seq<Line>, suite: Text)
    requires forall line :: line in lines ==> !(line.Stats? && line.name == suite)
    ensures LastStats(lines, suite) == None
  {
    if lines != [] {
      NoStats(lines[..|lines| - 1], suite);
    }
  }

  lemma PrintedStats(s: Suite)
    requires WellFormed(s)
    ensures LastStats(Print(s)[1..], s.name) == if s.stats then Some(StatsLine(s)) else None
  {
    var verdict := Result(s.verdictIndent, s.ok, s.name, NoDirective);
    var body := s.intro + [Plan(s.indent, |s.cases|)] + PrintCases(s.cases, s.indent) + s.outro;
    CasesResults(s, s.cases);
    if s.stats {
      assert Print(s)[1..] == body + [StatsLine(s)] + [verdict];
      LastStatsOf(body, StatsLine(s), [verdict], s.name);
    } else {
      assert Print(s)[1..] == body + [verdict];
      NoStats(Print(s)[1..], s.name);
    }
  }

  /** Reading a printed suite gives back exactly its tests, complete, whatever came before. */
  lemma {:induction false} RoundTrip(before: seq<Line>, s: Suite)
    requires WellFormed(s) && NoNamesake(s, Inside(s))
    ensures var r := Parse(before + Print(s), s.name);
            && r.complete && r.reportPresent && r.tests == Tests(s.cases) && AsPrinted(r.tests, s.cases) && Tallied(r)
  {
    TestsAsPrinted(s.cases);
    AnchoredExactly(before, s);
    InsideResults(s);
    InsideWithin(s);
    var lines := before + Print(s);
    var end := [Result(s.verdictIndent, s.ok, s.name, NoDirective)];
    assert lines[|before| + 1..] == Inside(s) + end == Print(s)[1..];
    ScanWithin(Inside(s), end, s.indent, |s.cases|, EMPTY.(reportPresent := true));
    PrintedStats(s);
    hide Scan, LastHeader, LastStats, Print, Inside, ResultsAt, Tests, AsPrinted;
    var r := Scan(Inside(s) + end, s.indent, EMPTY.(reportPresent := true));
    assert r.tests == Tests(s.cases) && r.plan == Some(|r.tests|);
    assert s.stats ==> StatsAgree(Some(StatsLine(s)), r);
  }

  function Verdict(s: Suite): Line {
    Result(s.verdictIndent, s.ok, s.name, NoDirective)
  }

  lemma NoHeaderNoReport(lines: seq<Line>, suite: Text)
    requires forall i :: 0 <= i < |lines| ==> !IsHeader(lines[i], suite)
    ensures Parse(lines, suite) == EMPTY
  {
  }

  /** From a header of the suite that no other follows, the parser reads what survives of its
      block, and stops at the latest at a surviving verdict. */
  lemma ReadsOwnBlock(b: seq<Line>, s: Suite, k: seq<bool>, end: seq<Line>)
    requires WellFormed(s) && NoNamesake(s, Inside(s)) && |k| == |Inside(s)|
    requires NoNamesake(s, end) && (end == [] || EndsScan(end[0], s.indent))
    requires Parse(b + [Header(s.indent, s.name)] + (Survivors(Inside(s), k) + end), s.name).complete
    ensures var r := Parse(b + [Header(s.indent, s.name)] + (Survivors(Inside(s), k) + end), s.name);
            r.tests == Tests(s.cases) && Tallied(r)
  {
    var top, inside := Header(s.indent, s.name), Survivors(Inside(s), k);
    var lines := b + [top] + (inside + end);
    MembersOfConcat(inside, end);
    LastHeaderAt(b, top, inside + end, s.name);
    DropFront(b + [top], inside + end, 0);
    InsideResults(s);
    InsideWithin(s);
    ScanWithin(inside, end, s.indent, |s.cases|, EMPTY.(reportPresent := true));
    FullCountIsEverything(Inside(s), k, ReadAt(s.indent));
  }

  /** What loss leaves of a text: some of what came before, perhaps the header, some of the
      block, and at the end perhaps the verdict and some of what comes after. */
  lemma SplitSurvivors(before: seq<Line>, s: Suite, after: seq<Line>, kept: seq<bool>)
    returns (b: seq<Line>, top: seq<Line>, k: seq<bool>, end: seq<Line>)
    requires |kept| == |before| + |Print(s)| + |after|
    ensures |k| == |Inside(s)| && (forall line :: line in b ==> line in before)
    ensures top == if kept[|before|] then [Header(s.indent, s.name)] else []
    ensures end == (if kept[|before| + |Print(s)| - 1] then [Verdict(s)] else [])
                   + Survivors(after, kept[|before| + |Print(s)|..])
    ensures Survivors(before + Print(s) + after, kept) == b + top + (Survivors(Inside(s), k) + end)
  {
    var header, verdict := [Header(s.indent, s.name)], [Verdict(s)];
    var k1 := kept[|before|..];
    var k2 := k1[1..];
    var k3 := k2[|Inside(s)|..];
    assert before + Print(s) + after == before + (header + (Inside(s) + (verdict + after)));
    SurvivorsConcat(before, header + (Inside(s) + (verdict + after)), kept);
    SurvivorsConcat(header, Inside(s) + (verdict + after), k1);
    SurvivorsConcat(Inside(s), verdict + after, k2);
    SurvivorsConcat(verdict, after, k3);
    assert k3[1..] == kept[|before| + |Print(s)|..];
    k := k2[..|Inside(s)|];
    b, top, end := Survivors(before, kept[..|before|]), Survivors(header, k1[..1]), Survivors(verdict + after, k3);
    Regroup(b, top, Survivors(Inside(s), k) + end);
  }

  /** The header of the run survives and none after it, and unless its verdict does nothing
      after the run survives: a cut journal, or one that lost lines inside. */
  ghost predicate LastAnchor(before: seq<Line>, s: Suite, after: seq<Line>, kept: seq<bool>)
    requires |kept| == |before| + |Print(s)| + |after|
  {
    var a := Survivors(after, kept[|before| + |Print(s)|..]);
    kept[|before|] && NoNamesake(s, a) && (kept[|before| + |Print(s)| - 1] || a == [])
  }

  lemma {:induction false} AnchoredLoss(before: seq<Line>, s: Suite, after: seq<Line>, kept: seq<bool>)
    requires WellFormed(s) && NoNamesake(s, Inside(s)) && |kept| == |before| + |Print(s)| + |after|
    requires LastAnchor(before, s, after, kept)
    requires Parse(Survivors(before + Print(s) + after, kept), s.name).complete
    ensures var r := Parse(Survivors(before + Print(s) + after, kept), s.name);
            r.tests == Tests(s.cases) && Tallied(r)
  {
    var b, top, k, end := SplitSurvivors(before, s, after, kept);
    EndIsPlain(s, kept[|before| + |Print(s)| - 1], Survivors(after, kept[|before| + |Print(s)|..]));
    hide *;
    ReadsOwnBlock(b, s, k, end);
  }

  lemma EndIsPlain(s: Suite, last: bool, a: seq<Line>)
    requires WellFormed(s) && NoNamesake(s, a) && (last || a == [])
    ensures var end := (if last then [Verdict(s)] else []) + a;
            NoNamesake(s, end) && (end == [] || EndsScan(end[0], s.indent))
  {
  }

  lemma {:induction false} UnanchoredLoss(before: seq<Line>, s: Suite, kept: seq<bool>)
    requires NoNamesake(s, Inside(s)) && NoNamesake(s, before) && |kept| == |before| + |Print(s)| && !kept[|before|]
    ensures !Parse(Survivors(before + Print(s) + [], kept), s.name).complete
  {
    var b, top, k, end := SplitSurvivors(before, s, [], kept);
    var inside := Survivors(Inside(s), k);
    MembersOfConcat(inside, end);
    MembersOfConcat(b + top, inside + end);
    NoHeaderNoReport(b + top + (inside + end), s.name);
  }

  /** Lose any lines at all of a text that may hold any number of runs: what still reads as
      complete is the full test list of the last run whose header survives. */
  lemma {:induction false} LossNeverReadsComplete(before: seq<Line>, s: Suite, after: seq<Line>, kept: seq<bool>)
    requires WellFormed(s) && NoNamesake(s, Inside(s)) && |kept| == |before| + |Print(s)| + |after|
    requires LastAnchor(before, s, after, kept) || (NoNamesake(s, before) && after == [])
    requires Parse(Survivors(before + Print(s) + after, kept), s.name).complete
    ensures var r := Parse(Survivors(before + Print(s) + after, kept), s.name);
            r.tests == Tests(s.cases) && AsPrinted(r.tests, s.cases) && Tallied(r)
  {
    TestsAsPrinted(s.cases);
    if kept[|before|] && after == [] {
      NothingAfter(before, s, kept);
    }
    hide Parse, Survivors, WellFormed, Inside, Tests, AsPrinted, Tallied, Print;
    if LastAnchor(before, s, after, kept) {
      AnchoredLoss(before, s, after, kept);
    } else {
      UnanchoredLoss(before, s, kept);
    }
  }

  lemma NothingAfter(before: seq<Line>, s: Suite, kept: seq<bool>)
    requires |kept| == |before| + |Print(s)| && kept[|before|]
    ensures LastAnchor(before, s, [], kept)
  {
  }

  /** The same over every subsequence of the printed lines. */
  lemma SubsequenceNeverReadsComplete(s: Suite, part: seq<Line>)
    requires WellFormed(s) && NoNamesake(s, Inside(s))
    requires Subsequence(part, Print(s)) && Parse(part, s.name).complete
    ensures Parse(part, s.name).tests == Tests(s.cases)
  {
    var kept := SubsequenceHasMask(part, Print(s));
    assert [] + Print(s) + [] == Print(s);
    LossNeverReadsComplete([], s, [], kept);
  }

  lemma CutAnchors(before: seq<Line>, s: Suite, after: seq<Line>, n: nat)
    requires |before| < n <= |before| + |Print(s)| + |after|
    requires NoNamesake(s, after[..Beyond(|before| + |Print(s)|, n)])
    ensures LastAnchor(before, s, after, FirstKept(n, |before| + |Print(s)| + |after|))
  {
    assert |Print(s)| > 0;
    hide Print, NoNamesake;
    var p, m := |before| + |Print(s)|, Beyond(|before| + |Print(s)|, n);
    CutSurvives(after, m);
    CutKeeps(p + |after|, p, n);
    assert n <= p ==> after[..m] == [];
  }

  /** Cut a text of any number of runs anywhere: what reads as complete is the full test list
      of the last run whose header stands before the cut. */
  lemma {:induction false} TruncationNeverReadsComplete(before: seq<Line>, s: Suite, after: seq<Line>, n: nat)
    requires WellFormed(s) && NoNamesake(s, Inside(s)) && |before| < n <= |before| + |Print(s)| + |after|
    requires NoNamesake(s, after[..Beyond(|before| + |Print(s)|, n)])
    requires Parse((before + Print(s) + after)[..n], s.name).complete
    ensures Parse((before + Print(s) + after)[..n], s.name).tests == Tests(s.cases)
  {
    hide *;
    var text := before + Print(s) + after;
    CutAnchors(before, s, after, n);
    CutSurvives(text, n);
    LossNeverReadsComplete(before, s, after, FirstKept(n, |text|));
  }
}
