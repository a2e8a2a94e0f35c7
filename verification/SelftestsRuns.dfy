/** Losing lines of a text that holds two selftest runs. With the later header lost,
    f/selftests/common.py reads on from one run into the other. */
module SelftestsRuns {
  import opened Wrappers
  import opened Ktap
  import opened Loss
  import opened Seqs
  import opened SelftestsKtap

  ghost predicate ReadsLastHeader(a: Run, b: Run, kept: seq<bool>)
    requires |kept| == |Print(a)| + |Print(b)|
  {
    var r := Parse(Survivors(Print(a) + Print(b), kept));
    r.complete ==> r.tests == Tests(if kept[|Print(a)|] then b.cases else a.cases)
  }

  /** Whatever is lost, a complete reading is the test list of the last run whose header
      survives. */
  ghost predicate NeverMixes(a: Run, b: Run) {
    forall kept :: |kept| == |Print(a)| + |Print(b)| ==> ReadsLastHeader(a, b, kept)
  }

  /** What loss leaves of two runs: perhaps a header, some of a run, perhaps a header, some of
      the other. */
  lemma {:induction false} SurvivorsOfBoth(a: Run, b: Run, top: bool, ka: seq<bool>, next: bool, kb: seq<bool>)
    requires |ka| == |Inside(a)| && |kb| == |Inside(b)|
    ensures Survivors(Print(a) + Print(b), [top] + ka + ([next] + kb))
         == (if top then [Header] else []) + Survivors(Inside(a), ka) + ((if next then [Header] else []) + Survivors(Inside(b), kb))
  {
    SurvivorsOfParts(Print(a), Print(b), [top] + ka, [next] + kb);
    SurvivorsOfParts([Header], Inside(a), [top], ka);
    SurvivorsOfParts([Header], Inside(b), [next], kb);
    assert Survivors([Header], [top]) == if top then [Header] else [];
    assert Survivors([Header], [next]) == if next then [Header] else [];
  }

  lemma Assemble<T>(top: seq<T>, x: seq<T>, y: seq<T>)
    ensures top + x + ([] + y) == top + (x + y)
  {
  }

  // ----- runs that list one test over and over ------------------------------------

  /** From the first header on, with the second lost. */
  lemma {:induction false} ReadsBoth(a: Run, b: Run, ka: seq<bool>, kb: seq<bool>)
    requires WellFormed(a) && WellFormed(b) && |a.cases| == |b.cases| && |ka| == |Inside(a)| && |kb| == |Inside(b)|
    ensures var body := Survivors(Inside(a), ka) + Survivors(Inside(b), kb);
            var r := Parse([Header] + body);
            r.tests == Results(body) && (r.complete ==> |r.tests| == |a.cases|)
  {
    var body := Survivors(Inside(a), ka) + Survivors(Inside(b), kb);
    MembersOfConcat(Survivors(Inside(a), ka), Survivors(Inside(b), kb));
    InsideLines(a);
    InsideLines(b);
    ScanCollects(EMPTY.(reportPresent := true), body, |a.cases|);
    assert [] + [Header] + body == [Header] + body;
    hide Parse, Scan, Results;
    ParsesFrom([], body);
  }

  lemma {:induction false} SameTestsRead(a: Run, b: Run, ka: seq<bool>, kb: seq<bool>)
    requires WellFormed(a) && WellFormed(b) && Tests(a.cases) == Tests(b.cases) && AllSame(Tests(a.cases))
    requires |ka| == |Inside(a)| && |kb| == |Inside(b)|
    requires Parse([Header] + (Survivors(Inside(a), ka) + Survivors(Inside(b), kb))).complete
    ensures Parse([Header] + (Survivors(Inside(a), ka) + Survivors(Inside(b), kb))).tests == Tests(a.cases)
  {
    var x, y := Survivors(Inside(a), ka), Survivors(Inside(b), kb);
    ReadsBoth(a, b, ka, kb);
    CollectConcat(x, y, ReadResult());
    CollectedSurvives(Inside(a), ka, ReadResult());
    CollectedSurvives(Inside(b), kb, ReadResult());
    InsideResults(a);
    InsideResults(b);
    MembersOfConcat(Results(x), Results(y));
    SameLists(Results(x + y), Tests(a.cases));
  }

  lemma {:induction false} LossOfSame(a: Run, b: Run, kept: seq<bool>)
    requires WellFormed(a) && WellFormed(b) && Tests(a.cases) == Tests(b.cases) && AllSame(Tests(a.cases))
    requires |kept| == |Print(a)| + |Print(b)|
    ensures ReadsLastHeader(a, b, kept)
  {
    var text, n := Print(a) + Print(b), |Print(a)|;
    var ka, kb := kept[1..n], kept[n + 1..];
    assert kept == [kept[0]] + ka + ([kept[n]] + kb);
    assert text + [] == text;
    SurvivorsOfBoth(a, b, kept[0], ka, kept[n], kb);
    if Parse(Survivors(text, kept)).complete {
      if kept[n] {
        NothingAfter(Print(a), b, kept);
        hide Parse, Survivors, Print, Tests, LastAnchor;
        LossNeverReadsComplete(Print(a), b, [], kept);
      } else if kept[0] {
        Assemble([Header], Survivors(Inside(a), ka), Survivors(Inside(b), kb));
        hide Parse, Survivors, Print, Tests;
        SameTestsRead(a, b, ka, kb);
      } else {
        NoHeaderLeft(a, b, ka, kb);
      }
    }
  }

  lemma {:induction false} NoHeaderLeft(a: Run, b: Run, ka: seq<bool>, kb: seq<bool>)
    requires WellFormed(a) && WellFormed(b) && |ka| == |Inside(a)| && |kb| == |Inside(b)|
    ensures !Parse([] + Survivors(Inside(a), ka) + ([] + Survivors(Inside(b), kb))).complete
  {
    InsideLines(a);
    InsideLines(b);
    NoHeaderNoReport([] + Survivors(Inside(a), ka) + ([] + Survivors(Inside(b), kb)));
  }

  // ----- runs that differ, or list different tests --------------------------------

  function ResultLines(cases: seq<Case>): (r: seq<Line>)
    ensures |r| == |cases|
    ensures forall i :: 0 <= i < |r| ==> r[i] == CaseLine(cases[i])
  {
    seq(|cases|, i requires 0 <= i < |cases| => CaseLine(cases[i]))
  }

  lemma {:induction false} ResultsAreKept(cases: seq<Case>)
    ensures Subsequence(ResultLines(cases), PrintCases(cases))
  {
    if cases != [] {
      var line, rest := [CaseLine(cases[0])], PrintCases(cases[1..]);
      ResultsAreKept(cases[1..]);
      SubsequenceOfItself(line);
      SubsequenceOfParts([], cases[0].output, line, line);
      SubsequenceOfParts([] + line, cases[0].output + line, ResultLines(cases[1..]), rest);
      assert ResultLines(cases) == [] + line + ResultLines(cases[1..]);
    }
  }

  /** One result of the first case, or all but that one. */
  lemma {:induction false} FirstOrRest(cases: seq<Case>)
    requires cases != []
    ensures Subsequence([CaseLine(cases[0])], PrintCases(cases))
    ensures Subsequence(ResultLines(cases[1..]), PrintCases(cases))
  {
    var line, rest, results := [CaseLine(cases[0])], PrintCases(cases[1..]), ResultLines(cases[1..]);
    SubsequenceOfItself(line);
    SubsequenceOfParts([], cases[0].output, line, line);
    SubsequenceOfParts([] + line, cases[0].output + line, [], rest);
    assert [] + line + [] == line;
    ResultsAreKept(cases[1..]);
    SubsequenceOfParts([], cases[0].output + line, results, rest);
    assert [] + results == results;
  }

  /** Of a run, some of the cases' lines can be kept, with the plan or without it. */
  lemma {:induction false} InsideKeeps(run: Run, part: seq<Line>)
    requires Subsequence(part, PrintCases(run.cases))
    ensures Subsequence([Plan(|run.cases|)] + part, Inside(run)) && Subsequence(part, Inside(run))
  {
    var plan, body, totals := [Plan(|run.cases|)], PrintCases(run.cases), if run.totals.Some? then [run.totals.value] else [];
    SubsequenceOfItself(plan);
    assert Subsequence([], plan) && Subsequence([], totals);
    hide Subsequence;
    SubsequenceOfParts(plan, plan, part, body);
    SubsequenceOfParts(plan + part, plan + body, [], totals);
    SubsequenceOfParts([], plan, part, body);
    SubsequenceOfParts([] + part, plan + body, [], totals);
    assert plan + part + [] == plan + part && [] + part + [] == part;
  }

  /** Keep the first header, some of both runs, and not the second header. */
  lemma {:induction false} BothKept(a: Run, b: Run, x: seq<Line>, y: seq<Line>) returns (kept: seq<bool>)
    requires Subsequence(x, Inside(a)) && Subsequence(y, Inside(b))
    ensures |kept| == |Print(a)| + |Print(b)| && !kept[|Print(a)|]
    ensures Survivors(Print(a) + Print(b), kept) == [Header] + (x + y)
  {
    var ka := SubsequenceHasMask(x, Inside(a));
    var kb := SubsequenceHasMask(y, Inside(b));
    kept := [true] + ka + ([false] + kb);
    SurvivorsOfBoth(a, b, true, ka, false, kb);
    Assemble([Header], x, y);
  }

  lemma {:induction false} ResultLinesRead(cases: seq<Case>)
    ensures Results(ResultLines(cases)) == Tests(cases)
  {
    if cases != [] {
      ResultLinesRead(cases[1..]);
      assert ResultLines(cases)[1..] == ResultLines(cases[1..]);
    }
  }

  lemma {:induction false} AsManyAsLines(results: seq<Line>)
    requires forall i :: 0 <= i < |results| ==> results[i].Result?
    ensures |Results(results)| == |results|
  {
    if results != [] {
      AsManyAsLines(results[1..]);
    }
  }

  lemma {:induction false} ScanPlanned(results: seq<Line>)
    requires forall i :: 0 <= i < |results| ==> results[i].Result?
    ensures var r := Scan(EMPTY.(reportPresent := true), [Plan(|results|)] + results);
            r.tests == Results(results) && r.plan == Some(|results|) && r.totals == None
  {
    var start, plan := EMPTY.(reportPresent := true), [Plan(|results|)];
    var body := plan + results;
    assert body[0] == Plan(|results|) && forall line :: line in body ==> line == body[0] || line in results;
    assert Plan(|results|) in body;
    CollectNothing(plan, ReadResult());
    CollectConcat(plan, results, ReadResult());
    TotalsUnseen(start, body);
    hide Scan, Collect;
    ScanCollects(start, body, |results|);
  }

  /** A plan and then results: complete when there are as many as it says. */
  lemma {:induction false} PlanThenResults(results: seq<Line>)
    requires forall i :: 0 <= i < |results| ==> results[i].Result?
    ensures var r := Parse([Header] + ([Plan(|results|)] + results)); r.tests == Results(results) && r.complete
  {
    var body := [Plan(|results|)] + results;
    assert forall line :: line in body ==> line == Plan(|results|) || line in results;
    assert [] + [Header] + body == [Header] + body;
    AsManyAsLines(results);
    hide Parse, Scan, Results;
    ParsesFrom([], body);
    ScanPlanned(results);
  }

  /** The later run's plan and results under the earlier header. */
  lemma {:induction false} LaterSurvivors(a: Run, b: Run) returns (kept: seq<bool>, results: seq<Line>)
    ensures |kept| == |Print(a)| + |Print(b)| && !kept[|Print(a)|]
    ensures Survivors(Print(a) + Print(b), kept) == [Header] + ([Plan(|results|)] + results)
    ensures forall i :: 0 <= i < |results| ==> results[i].Result?
    ensures Results(results) == Tests(b.cases)
  {
    results := ResultLines(b.cases);
    ResultLinesRead(b.cases);
    ResultsAreKept(b.cases);
    InsideKeeps(b, results);
    assert Subsequence([], Inside(a));
    hide *;
    kept := BothKept(a, b, [], [Plan(|results|)] + results);
    assert [] + ([Plan(|results|)] + results) == [Plan(|results|)] + results;
  }

  lemma {:induction false} DifferentRunsMix(a: Run, b: Run)
    requires Tests(a.cases) != Tests(b.cases)
    ensures !NeverMixes(a, b)
  {
    var kept, results := LaterSurvivors(a, b);
    assert !ReadsLastHeader(a, b, kept) by {
      hide Parse, Tests, Results, Print;
      PlanThenResults(results);
    }
  }

  /** The earlier run without its first result, and the later run's first in its place. */
  lemma {:induction false} MixedSurvivors(a: Run, b: Run) returns (kept: seq<bool>, mixed: seq<Line>)
    requires Tests(a.cases) == Tests(b.cases) && a.cases != []
    ensures |kept| == |Print(a)| + |Print(b)| && !kept[|Print(a)|]
    ensures Survivors(Print(a) + Print(b), kept) == [Header] + ([Plan(|a.cases|)] + mixed)
    ensures |mixed| == |a.cases| && forall i :: 0 <= i < |mixed| ==> mixed[i].Result?
    ensures Results(mixed) == Tests(a.cases)[1..] + [Tests(a.cases)[0]]
  {
    assert |Tests(b.cases)| == |b.cases| > 0;
    var plan, rest, first := [Plan(|a.cases|)], ResultLines(a.cases[1..]), [CaseLine(b.cases[0])];
    mixed := rest + first;
    ResultLinesRead(a.cases[1..]);
    CollectConcat(rest, first, ReadResult());
    assert Results(first) == [Tests(b.cases)[0]];
    FirstOrRest(a.cases);
    FirstOrRest(b.cases);
    hide *;
    InsideKeeps(a, rest);
    InsideKeeps(b, first);
    kept := BothKept(a, b, plan + rest, first);
    Regroup(plan, rest, first);
  }

  lemma {:induction false} DifferentTestsMix(a: Run, b: Run)
    requires Tests(a.cases) == Tests(b.cases) && !AllSame(Tests(a.cases))
    ensures !NeverMixes(a, b)
  {
    assert a.cases != [];
    var kept, mixed := MixedSurvivors(a, b);
    var tests := Tests(a.cases);
    if tests[1..] + [tests[0]] == tests {
      RotatedDiffers(tests);
    }
    assert !ReadsLastHeader(a, b, kept) by {
      hide Parse, Tests, Results, Print;
      PlanThenResults(mixed);
    }
  }

  /** Complete readings are those of the last surviving header, whatever is lost, exactly when
      the two runs list the same tests and all of these are one and the same. */
  lemma NeverMixesExactly(a: Run, b: Run)
    requires WellFormed(a) && WellFormed(b)
    ensures NeverMixes(a, b) <==> Tests(a.cases) == Tests(b.cases) && AllSame(Tests(a.cases))
  {
    if Tests(a.cases) != Tests(b.cases) {
      DifferentRunsMix(a, b);
    } else if !AllSame(Tests(a.cases)) {
      DifferentTestsMix(a, b);
    } else {
      forall kept | |kept| == |Print(a)| + |Print(b)|
        ensures ReadsLastHeader(a, b, kept)
      {
        LossOfSame(a, b, kept);
      }
    }
  }
}
