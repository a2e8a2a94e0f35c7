/** What the selftests reader makes of any text: what it counts, and when it takes a report for
    complete. */
module SelftestsReading {
  import opened Wrappers
  import opened Ktap
  import opened Loss
  import opened Seqs
  import opened SelftestsKtap

  function FirstPlan(lines: seq<Line>): (r: Option<nat>)
    ensures r.Some? ==> r.value < |lines| && lines[r.value].Plan?
    ensures forall i :: 0 <= i < |lines| && lines[i].Plan? ==> r.Some? && r.value <= i
  {
    if lines == [] then None
    else if lines[0].Plan? then Some(0)
    else
      var r := FirstPlan(lines[1..]);
      assert forall i :: 0 < i < |lines| ==> lines[i] == lines[1..][i - 1];
      if r.Some? then Some(r.value + 1) else None
  }

  function TotalsAt(lines: seq<Line>): (r: Option<nat>)
    ensures r.Some? ==> r.value < |lines| && lines[r.value].Totals?
    ensures forall i :: 0 <= i < |lines| && lines[i].Totals? ==> r.Some? && i <= r.value
  {
    if lines == [] then None
    else
      var n := |lines| - 1;
      if lines[n].Totals? then Some(n) else TotalsAt(lines[..n])
  }

  function PlanOf(lines: seq<Line>): Option<nat> {
    var k := FirstPlan(lines);
    if k.Some? then Some(lines[k.value].count) else None
  }

  function TotalsOf(lines: seq<Line>): Option<Line> {
    var k := TotalsAt(lines);
    if k.Some? then Some(lines[k.value]) else None
  }

  ghost predicate ReadAll(lines: seq<Line>, r: Summary) {
    r.tests == Results(lines) && Tallied(r) && r.reportPresent && r.plan == PlanOf(lines) && r.totals == TotalsOf(lines)
  }

  lemma ReadOneMore(lines: seq<Line>, line: Line, s: Summary)
    requires ReadAll(lines, s)
    ensures ReadAll(lines + [line], ScanLine(s, line))
  {
    var all := lines + [line];
    assert all[..|all| - 1] == lines && all[|all| - 1] == line;
    LineTallied(s, line);
    CollectConcat(lines, [line], ReadResult());
    assert Results([line]) == if line.Result? then [Read(line)] else [] by {
      assert [line][1..] == [];
    }
    assert TotalsOf(all) == if line.Totals? then Some(line) else TotalsOf(lines);
    PlanOneMore(lines, line);
    hide PlanOf, TotalsOf, Results, Tallied;
  }

  lemma PlanOneMore(lines: seq<Line>, line: Line)
    ensures PlanOf(lines + [line]) == if PlanOf(lines).Some? then PlanOf(lines) else if line.Plan? then Some(line.count) else None
  {
    var all := lines + [line];
    assert forall i :: 0 <= i < |lines| ==> all[i] == lines[i];
    assert all[|lines|] == line;
    hide FirstPlan;
  }

  lemma {:induction false} ScanReads(lines: seq<Line>)
    ensures ReadAll(lines, Scan(EMPTY.(reportPresent := true), lines))
  {
    if lines != [] {
      var n := |lines| - 1;
      var s := Scan(EMPTY.(reportPresent := true), lines[..n]);
      ScanReads(lines[..n]);
      assert lines == lines[..n] + [lines[n]];
      ScanConcat(EMPTY.(reportPresent := true), lines[..n], [lines[n]]);
      assert Scan(s, [lines[n]]) == Scan(ScanLine(s, lines[n]), []) == ScanLine(s, lines[n]);
      hide ReadAll, ScanLine;
      ReadOneMore(lines[..n], lines[n], s);
    }
  }

  /** No totals line, or one whose numbers add up to those counted. */
  ghost predicate TotalsSame(after: seq<Line>, r: Summary) {
    var k := TotalsAt(after);
    k.Some? ==>
      var t := after[k.value];
      t.passed + t.xfail + t.xpass == r.passed && t.failed + t.error == r.failed && t.skipped == r.skipped
  }

  /** Any text with a header, the last of them followed by `after`: the tests are those of the
      results in `after`, and the report is complete exactly when the first plan there is their
      number and the last totals line has their counts. */
  lemma {:induction false} ParseMeans(before: seq<Line>, after: seq<Line>)
    requires forall line :: line in after ==> !line.Header?
    ensures var r, plan := Parse(before + [Header] + after), FirstPlan(after);
            && r.reportPresent && r.tests == Results(after) && Tallied(r)
            && r.plan == (if plan.Some? then Some(after[plan.value].count) else None)
            && (r.complete <==> plan.Some? && after[plan.value].count == |r.tests| && TotalsSame(after, r))
  {
    ParsesFrom(before, after);
    ScanReads(after);
    hide Scan, Parse, Results;
  }
}
