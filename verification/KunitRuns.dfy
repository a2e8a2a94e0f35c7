/** Losing lines of a text that holds two runs of one KUnit suite. With the later header lost
    and the earlier verdict lost, f/kunit/common.py reads on from one run into the other. */
module KunitRuns {
  import opened Wrappers
  import opened Ktap
  import opened Loss
  import opened Seqs
  import opened KunitKtap

  /** Two runs of one suite, neither with a nested namesake. */
  ghost predicate Runs(a: Suite, b: Suite) {
    && a.name == b.name && a.indent == b.indent
    && WellFormed(a) && NoNamesake(a, Inside(a)) && WellFormed(b) && NoNamesake(b, Inside(b))
  }

  ghost predicate ReadsLastHeader(a: Suite, b: Suite, kept: seq<bool>)
    requires |kept| == |Print(a)| + |Print(b)|
  {
    var r := Parse(Survivors(Print(a) + Print(b), kept), a.name);
    r.complete ==> r.tests == Tests(if kept[|Print(a)|] then b.cases else a.cases)
  }

  /** Whatever is lost, a complete reading is the test list of the last run whose header
      survives. */
  ghost predicate NeverMixes(a: Suite, b: Suite) {
    forall kept :: |kept| == |Print(a)| + |Print(b)| ==> ReadsLastHeader(a, b, kept)
  }

  // ----- runs that list one test over and over ------------------------------------

  /** From the first header on, with neither the first verdict nor the second header left. */
  lemma {:induction false} ReadsBoth(a: Suite, b: Suite, ka: seq<bool>, kb: seq<bool>, end: seq<Line>)
    requires Runs(a, b) && |a.cases| == |b.cases| && |ka| == |Inside(a)| && |kb| == |Inside(b)|
    requires NoNamesake(a, end) && (end == [] || EndsScan(end[0], a.indent))
    ensures var inside := Survivors(Inside(a), ka) + Survivors(Inside(b), kb);
            var r := Parse([Header(a.indent, a.name)] + (inside + end), a.name);
            r.tests == ResultsAt(inside, a.indent) && (r.complete ==> |r.tests| == |a.cases|)
  {
    var inside := Survivors(Inside(a), ka) + Survivors(Inside(b), kb);
    var top := Header(a.indent, a.name);
    MembersOfConcat(Survivors(Inside(a), ka), Survivors(Inside(b), kb));
    MembersOfConcat(inside, end);
    InsideWithin(a);
    InsideWithin(b);
    ScanWithin(inside, end, a.indent, |a.cases|, EMPTY.(reportPresent := true));
    hide Parse, Scan, LastHeader, LastStats, ResultsAt;
    ParsesFrom(top, inside + end, a.name);
  }

  lemma {:induction false} SameTestsRead(a: Suite, b: Suite, ka: seq<bool>, kb: seq<bool>, end: seq<Line>)
    requires Runs(a, b) && Tests(a.cases) == Tests(b.cases) && AllSame(Tests(a.cases))
    requires |ka| == |Inside(a)| && |kb| == |Inside(b)|
    requires NoNamesake(a, end) && (end == [] || EndsScan(end[0], a.indent))
    requires Parse([Header(a.indent, a.name)] + (Survivors(Inside(a), ka) + Survivors(Inside(b), kb) + end), a.name).complete
    ensures Parse([Header(a.indent, a.name)] + (Survivors(Inside(a), ka) + Survivors(Inside(b), kb) + end), a.name).tests
         == Tests(a.cases)
  {
    var x, y := Survivors(Inside(a), ka), Survivors(Inside(b), kb);
    ReadsBoth(a, b, ka, kb, end);
    CollectConcat(x, y, ReadAt(a.indent));
    CollectedSurvives(Inside(a), ka, ReadAt(a.indent));
    CollectedSurvives(Inside(b), kb, ReadAt(a.indent));
    InsideResults(a);
    InsideResults(b);
    MembersOfConcat(ResultsAt(x, a.indent), ResultsAt(y, a.indent));
    SameLists(ResultsAt(x + y, a.indent), Tests(a.cases));
  }

  /** What loss leaves of one printed run: perhaps its header, some of its block, perhaps its
      verdict. */
  lemma {:induction false} SurvivorsOfPrint(s: Suite, top: bool, k: seq<bool>, last: bool)
    requires |k| == |Inside(s)|
    ensures Survivors(Print(s), [top] + k + [last])
         == (if top then [Header(s.indent, s.name)] else []) + Survivors(Inside(s), k) + (if last then [Verdict(s)] else [])
  {
    var header, verdict := [Header(s.indent, s.name)], [Verdict(s)];
    SurvivorsOfParts(header + Inside(s), verdict, [top] + k, [last]);
    SurvivorsOfParts(header, Inside(s), [top], k);
    assert Survivors(header, [top]) == if top then header else [];
    assert Survivors(verdict, [last]) == if last then verdict else [];
  }

  lemma {:induction false} LostBetween(a: Suite, b: Suite, kept: seq<bool>)
    returns (ka: seq<bool>, kb: seq<bool>, end: seq<Line>)
    requires Runs(a, b) && |kept| == |Print(a)| + |Print(b)|
    requires kept[0] && !kept[|Print(a)|] && !kept[|Print(a)| - 1]
    ensures |ka| == |Inside(a)| && |kb| == |Inside(b)|
    ensures NoNamesake(a, end) && (end == [] || EndsScan(end[0], a.indent))
    ensures Survivors(Print(a) + Print(b), kept)
         == [Header(a.indent, a.name)] + (Survivors(Inside(a), ka) + Survivors(Inside(b), kb) + end)
  {
    var n, m := |Print(a)|, |Print(b)|;
    var earlier, later := kept[..n], kept[n..];
    ka, kb := earlier[1..n - 1], later[1..m - 1];
    end := if later[m - 1] then [Verdict(b)] else [];
    SurvivorsConcat(Print(a), Print(b), kept);
    assert earlier == [true] + ka + [false];
    assert later == [false] + kb + [later[m - 1]];
    SurvivorsOfPrint(a, true, ka, false);
    SurvivorsOfPrint(b, false, kb, later[m - 1]);
    Assemble([Header(a.indent, a.name)], Survivors(Inside(a), ka), Survivors(Inside(b), kb), end);
  }

  lemma Assemble<T>(top: seq<T>, x: seq<T>, y: seq<T>, end: seq<T>)
    ensures top + x + [] + ([] + y + end) == top + (x + y + end)
  {
  }

  lemma NoHeaderAfter(a: Suite, b: Suite, kept: seq<bool>)
    requires Runs(a, b) && |kept| == |Print(b)| && !kept[0]
    ensures NoNamesake(a, Survivors(Print(b), kept))
  {
    var x, top, k, end := SplitSurvivors([], b, [], kept);
    assert [] + Print(b) + [] == Print(b);
    MembersOfConcat(Survivors(Inside(b), k), end);
  }

  lemma NoHeaderAtAll(a: Suite, b: Suite, kept: seq<bool>)
    requires Runs(a, b) && |kept| == |Print(a)| + |Print(b)| && !kept[0] && !kept[|Print(a)|]
    ensures !Parse(Survivors(Print(a) + Print(b), kept), a.name).complete
  {
    SurvivorsConcat(Print(a), Print(b), kept);
    NoHeaderAfter(a, a, kept[..|Print(a)|]);
    NoHeaderAfter(a, b, kept[|Print(a)|..]);
    NoHeaderNoReport(Survivors(Print(a) + Print(b), kept), a.name);
  }

  lemma {:induction false} LossOfSame(a: Suite, b: Suite, kept: seq<bool>)
    requires Runs(a, b) && Tests(a.cases) == Tests(b.cases) && AllSame(Tests(a.cases))
    requires |kept| == |Print(a)| + |Print(b)|
    ensures ReadsLastHeader(a, b, kept)
  {
    var text := Print(a) + Print(b);
    assert text + [] == text && [] + Print(a) + Print(b) == text;
    if Parse(Survivors(text, kept), a.name).complete {
      if kept[|Print(a)|] {
        NothingAfter(Print(a), b, kept);
        hide Parse, Survivors, Print, Tests, LastAnchor;
        LossNeverReadsComplete(Print(a), b, [], kept);
      } else if !kept[0] {
        NoHeaderAtAll(a, b, kept);
      } else if kept[|Print(a)| - 1] {
        NoHeaderAfter(a, b, kept[|Print(a)|..]);
        hide Parse, Survivors, Print, Tests;
        LossNeverReadsComplete([], a, Print(b), kept);
      } else {
        hide Parse, Survivors, Print, Tests;
        var ka, kb, end := LostBetween(a, b, kept);
        SameTestsRead(a, b, ka, kb, end);
      }
    }
  }

  // ----- runs that differ, or list different tests --------------------------------

  function ResultLines(cases: seq<Case>, indent: nat): (r: seq<Line>)
    ensures |r| == |cases|
    ensures forall i :: 0 <= i < |r| ==> r[i] == CaseLine(cases[i], indent)
  {
    seq(|cases|, i requires 0 <= i < |cases| => CaseLine(cases[i], indent))
  }

  lemma {:induction false} ResultsAreKept(cases: seq<Case>, indent: nat)
    ensures Subsequence(ResultLines(cases, indent), PrintCases(cases, indent))
  {
    if cases != [] {
      var line, rest := [CaseLine(cases[0], indent)], PrintCases(cases[1..], indent);
      ResultsAreKept(cases[1..], indent);
      SubsequenceOfItself(line);
      SubsequenceOfParts([], cases[0].noise, line, line);
      SubsequenceOfParts([] + line, cases[0].noise + line, ResultLines(cases[1..], indent), rest);
      assert ResultLines(cases, indent) == [] + line + ResultLines(cases[1..], indent);
    }
  }

  /** One result of the block's first case, or all but that one. */
  lemma {:induction false} FirstOrRest(cases: seq<Case>, indent: nat)
    requires cases != []
    ensures Subsequence([CaseLine(cases[0], indent)], PrintCases(cases, indent))
    ensures Subsequence(ResultLines(cases[1..], indent), PrintCases(cases, indent))
  {
    var line, rest, results := [CaseLine(cases[0], indent)], PrintCases(cases[1..], indent), ResultLines(cases[1..], indent);
    SubsequenceOfItself(line);
    SubsequenceOfParts([], cases[0].noise, line, line);
    SubsequenceOfParts([] + line, cases[0].noise + line, [], rest);
    assert [] + line + [] == line;
    ResultsAreKept(cases[1..], indent);
    SubsequenceOfParts([], cases[0].noise + line, results, rest);
    assert [] + results == results;
  }

  /** Of a block, some of the cases' lines can be kept, with the plan or without it. */
  lemma {:induction false} InsideKeeps(s: Suite, part: seq<Line>)
    requires Subsequence(part, PrintCases(s.cases, s.indent))
    ensures Subsequence([Plan(s.indent, |s.cases|)] + part, Inside(s)) && Subsequence(part, Inside(s))
  {
    var plan, body, stats := [Plan(s.indent, |s.cases|)], PrintCases(s.cases, s.indent), if s.stats then [StatsLine(s)] else [];
    SubsequenceOfItself(plan);
    MiddleKept(s.intro, plan, plan, body, part, s.outro, stats);
    MiddleKept(s.intro, plan, [], body, part, s.outro, stats);
    assert [] + part == part;
  }

  lemma {:induction false} MiddleKept<T>(a: seq<T>, b: seq<T>, x: seq<T>, c: seq<T>, y: seq<T>, d: seq<T>, e: seq<T>)
    requires Subsequence(x, b) && Subsequence(y, c)
    ensures Subsequence(x + y, a + b + c + d + e)
  {
    assert Subsequence<T>([], a) && Subsequence<T>([], d) && Subsequence<T>([], e);
    hide *;
    SubsequenceOfParts([], a, x, b);
    SubsequenceOfParts([] + x, a + b, y, c);
    SubsequenceOfParts([] + x + y, a + b + c, [], d);
    SubsequenceOfParts([] + x + y + [], a + b + c + d, [], e);
    assert [] + x + y + [] + [] == x + y;
  }

  /** Keep the first header, some of both blocks, and nothing else. */
  lemma {:induction false} BothKept(a: Suite, b: Suite, x: seq<Line>, y: seq<Line>) returns (kept: seq<bool>)
    requires Subsequence(x, Inside(a)) && Subsequence(y, Inside(b))
    ensures |kept| == |Print(a)| + |Print(b)| && !kept[|Print(a)|]
    ensures Survivors(Print(a) + Print(b), kept) == [Header(a.indent, a.name)] + (x + y)
  {
    var ka := SubsequenceHasMask(x, Inside(a));
    var kb := SubsequenceHasMask(y, Inside(b));
    kept := [true] + ka + [false] + ([false] + kb + [false]);
    SurvivorsOfParts(Print(a), Print(b), [true] + ka + [false], [false] + kb + [false]);
    SurvivorsOfPrint(a, true, ka, false);
    SurvivorsOfPrint(b, false, kb, false);
    Assemble([Header(a.indent, a.name)], x, y, []);
    assert x + y + [] == x + y;
  }

  lemma {:induction false} ResultLinesRead(cases: seq<Case>, indent: nat)
    ensures ResultsAt(ResultLines(cases, indent), indent) == Tests(cases)
  {
    if cases != [] {
      ResultLinesRead(cases[1..], indent);
      assert ResultLines(cases, indent)[1..] == ResultLines(cases[1..], indent);
    }
  }

  lemma {:induction false} ParsesFrom(top: Line, body: seq<Line>, suite: Text)
    requires IsHeader(top, suite) && forall line :: line in body ==> !IsHeader(line, suite)
    ensures var s := Scan(body, top.indent, EMPTY.(reportPresent := true));
            Parse([top] + body, suite) == s.(complete := s.plan == Some(|s.tests|) && StatsAgree(LastStats(body, suite), s))
  {
    hide Scan, LastHeader, LastStats;
    LastHeaderAt([], top, body, suite);
    assert [] + [top] + body == [top] + body;
    DropFront([top], body, 0);
  }

  lemma {:induction false} ScanPlanned(indent: nat, results: seq<Line>)
    requires forall i :: 0 <= i < |results| ==> AtIndent(indent, results[i])
    ensures var r := Scan([Plan(indent, |results|)] + results, indent, EMPTY.(reportPresent := true));
            r.tests == ResultsAt(results, indent) && r.plan == Some(|results|)
  {
    var body := [Plan(indent, |results|)] + results;
    assert body[0] == Plan(indent, |results|) && forall line :: line in body ==> line == body[0] || line in results;
    assert Plan(indent, |results|) in body;
    PlanIsSilent(indent, results);
    assert body + [] == body;
    hide Scan, ResultsAt;
    ScanWithin(body, [], indent, |results|, EMPTY.(reportPresent := true));
  }

  /** A plan and then results at its indent: complete when there are as many as it says. */
  lemma {:induction false} PlanThenResults(suite: Text, indent: nat, results: seq<Line>)
    requires forall i :: 0 <= i < |results| ==> AtIndent(indent, results[i])
    ensures var r := Parse([Header(indent, suite)] + ([Plan(indent, |results|)] + results), suite);
            r.tests == ResultsAt(results, indent) && r.complete
  {
    var top, body := Header(indent, suite), [Plan(indent, |results|)] + results;
    assert forall line :: line in body ==> line == Plan(indent, |results|) || line in results;
    NoStats(body, suite);
    AsManyAsLines(results, indent);
    hide Parse, Scan, LastHeader, LastStats, ResultsAt;
    ParsesFrom(top, body, suite);
    ScanPlanned(indent, results);
  }

  lemma PlanIsSilent(indent: nat, results: seq<Line>)
    ensures ResultsAt([Plan(indent, |results|)] + results, indent) == ResultsAt(results, indent)
  {
    CollectNothing([Plan(indent, |results|)], ReadAt(indent));
    SilentBefore([Plan(indent, |results|)], results, indent);
  }

  lemma {:induction false} AsManyAsLines(results: seq<Line>, indent: nat)
    requires forall i :: 0 <= i < |results| ==> AtIndent(indent, results[i])
    ensures |ResultsAt(results, indent)| == |results|
  {
    if results != [] {
      AsManyAsLines(results[1..], indent);
    }
  }

  /** The later run's plan and results under the earlier header. */
  lemma {:induction false} LaterSurvivors(a: Suite, b: Suite) returns (kept: seq<bool>, results: seq<Line>)
    requires Runs(a, b)
    ensures |kept| == |Print(a)| + |Print(b)| && !kept[|Print(a)|]
    ensures Survivors(Print(a) + Print(b), kept) == [Header(a.indent, a.name)] + ([Plan(a.indent, |results|)] + results)
    ensures forall i :: 0 <= i < |results| ==> AtIndent(a.indent, results[i])
    ensures ResultsAt(results, a.indent) == Tests(b.cases)
  {
    results := ResultLines(b.cases, b.indent);
    ResultLinesRead(b.cases, b.indent);
    ResultsAreKept(b.cases, b.indent);
    InsideKeeps(b, results);
    assert Subsequence([], Inside(a));
    hide *;
    kept := BothKept(a, b, [], [Plan(b.indent, |results|)] + results);
    assert [] + ([Plan(a.indent, |results|)] + results) == [Plan(a.indent, |results|)] + results;
  }

  lemma {:induction false} DifferentRunsMix(a: Suite, b: Suite)
    requires Runs(a, b) && Tests(a.cases) != Tests(b.cases)
    ensures !NeverMixes(a, b)
  {
    var kept, results := LaterSurvivors(a, b);
    assert !ReadsLastHeader(a, b, kept) by {
      hide Parse, Tests, ResultsAt, Print;
      PlanThenResults(a.name, a.indent, results);
    }
  }

  /** The earlier run without its first result, and the later run's first in its place. */
  lemma {:induction false} MixedSurvivors(a: Suite, b: Suite) returns (kept: seq<bool>, mixed: seq<Line>)
    requires Runs(a, b) && Tests(a.cases) == Tests(b.cases) && a.cases != []
    ensures |kept| == |Print(a)| + |Print(b)| && !kept[|Print(a)|]
    ensures Survivors(Print(a) + Print(b), kept) == [Header(a.indent, a.name)] + ([Plan(a.indent, |a.cases|)] + mixed)
    ensures |mixed| == |a.cases| && forall i :: 0 <= i < |mixed| ==> AtIndent(a.indent, mixed[i])
    ensures ResultsAt(mixed, a.indent) == Tests(a.cases)[1..] + [Tests(a.cases)[0]]
  {
    assert |Tests(b.cases)| == |b.cases| > 0;
    var plan, rest, first := [Plan(a.indent, |a.cases|)], ResultLines(a.cases[1..], a.indent), [CaseLine(b.cases[0], b.indent)];
    mixed := rest + first;
    ResultLinesRead(a.cases[1..], a.indent);
    CollectConcat(rest, first, ReadAt(a.indent));
    assert ResultsAt(first, a.indent) == [Tests(b.cases)[0]];
    FirstOrRest(a.cases, a.indent);
    FirstOrRest(b.cases, b.indent);
    hide *;
    InsideKeeps(a, rest);
    InsideKeeps(b, first);
    kept := BothKept(a, b, plan + rest, first);
    Regroup(plan, rest, first);
  }

  lemma {:induction false} DifferentTestsMix(a: Suite, b: Suite)
    requires Runs(a, b) && Tests(a.cases) == Tests(b.cases) && !AllSame(Tests(a.cases))
    ensures !NeverMixes(a, b)
  {
    assert a.cases != [];
    var kept, mixed := MixedSurvivors(a, b);
    var tests := Tests(a.cases);
    if tests[1..] + [tests[0]] == tests {
      RotatedDiffers(tests);
    }
    assert !ReadsLastHeader(a, b, kept) by {
      hide Parse, Tests, ResultsAt, Print;
      PlanThenResults(a.name, a.indent, mixed);
    }
  }

  /** Complete readings are those of the last surviving header, whatever is lost, exactly when
      the two runs list the same tests and all of these are one and the same. Apart from that
      some loss reads as a complete run that never was. */
  lemma NeverMixesExactly(a: Suite, b: Suite)
    requires Runs(a, b)
    ensures NeverMixes(a, b) <==> Tests(a.cases) == Tests(b.cases) && AllSame(Tests(a.cases))
  {
    if Tests(a.cases) != Tests(b.cases) {
      DifferentRunsMix(a, b);
    } else if !AllSame(Tests(a.cases)) {
      DifferentTestsMix(a, b);
    } else {
      forall kept | |kept| == |Print(a)| + |Print(b)|
        ensures ReadsLastHeader(a, b, kept)
      {
        LossOfSame(a, b, kept);
      }
    }
  }
}
