/** A KUnit suite with a parameterised case of the suite's own name, as f/kunit/common.py
    reads it. */
module KunitNamesake {
  import opened Wrappers
  import opened Ktap
  import opened KunitKtap

  /** A failing suite of one parameterised case that bears the suite's name. */
  function Namesake(suite: Text, arg: Text): Suite {
    var noise := [Header(8, suite), Plan(8, 1), Result(8, true, arg, NoDirective)];
    Suite(suite, 4, [], [Case(noise, false, suite, NoDirective)], [], false, 0, false)
  }

  /** Without the condition it fails on an intact journal: that suite reads as a complete
      pass. */
  lemma NamesakeReadsAsPass(suite: Text, arg: Text)
    ensures WellFormed(Namesake(suite, arg))
    ensures Tests(Namesake(suite, arg).cases) == [Test(suite, Failed, NO_TEXT)]
    ensures var r := Parse(Print(Namesake(suite, arg)), suite);
            r.complete && r.tests == [Test(arg, Passed, NO_TEXT)]
  {
    var s, top, tail := Namesake(suite, arg), [Header(4, suite), Plan(4, 1)], NamesakeTail(suite, arg);
    NamesakePrints(suite, arg);
    LastHeaderAt(top, Header(8, suite), tail, suite);
    assert Print(s)[2] == Header(8, suite) && Print(s)[3..] == tail;
    NamesakeScans(suite, arg);
    NoStats(tail, suite);
  }

  function NamesakeTail(suite: Text, arg: Text): seq<Line> {
    [Plan(8, 1), Result(8, true, arg, NoDirective), Result(4, false, suite, NoDirective), Result(0, false, suite, NoDirective)]
  }

  lemma NamesakePrints(suite: Text, arg: Text)
    ensures Print(Namesake(suite, arg)) == [Header(4, suite), Plan(4, 1)] + [Header(8, suite)] + NamesakeTail(suite, arg)
  {
    var s := Namesake(suite, arg);
    assert s.cases[1..] == [];
    assert PrintCases(s.cases, 4) == s.cases[0].noise + [Result(4, false, suite, NoDirective)];
  }

  lemma NamesakeScans(suite: Text, arg: Text)
    ensures var r := Scan(NamesakeTail(suite, arg), 8, EMPTY.(reportPresent := true));
            r.plan == Some(1) && r.tests == [Test(arg, Passed, NO_TEXT)]
  {
    var tail, start := NamesakeTail(suite, arg), EMPTY.(reportPresent := true);
    var planned := start.(plan := Some(1));
    assert Scan(tail, 8, start) == Scan(tail[1..], 8, planned);
    assert tail[1..][0] == tail[1] && tail[1..][1..] == tail[2..];
    assert Scan(tail[1..], 8, planned) == Scan(tail[2..], 8, Record(planned, tail[1]));
    assert EndsScan(tail[2..][0], 8);
  }
}
