/** What the KUnit reader makes of any text: where it reads, what it counts, and when it takes
    a report for complete. */
module KunitReading {
  import opened Wrappers
  import opened Ktap
  import opened Loss
  import opened Seqs
  import opened KunitKtap

  /** The first plan at the indent. */
  function FirstPlan(lines: seq<Line>, indent: nat): (r: Option<nat>)
    ensures r.Some? ==> r.value < |lines| && lines[r.value].Plan? && lines[r.value].indent == indent
    ensures forall i :: 0 <= i < |lines| && lines[i].Plan? && lines[i].indent == indent ==> r.Some? && r.value <= i
  {
    if lines == [] then None
    else if lines[0].Plan? && lines[0].indent == indent then Some(0)
    else
      var r := FirstPlan(lines[1..], indent);
      assert forall i :: 0 < i < |lines| ==> lines[i] == lines[1..][i - 1];
      if r.Some? then Some(r.value + 1) else None
  }

  /** Where the last stats line of the suite stands. */
  function StatsAt(lines: seq<Line>, suite: Text): (r: Option<nat>)
    ensures r.Some? ==> r.value < |lines| && lines[r.value].Stats? && lines[r.value].name == suite
    ensures forall i :: 0 <= i < |lines| && lines[i].Stats? && lines[i].name == suite ==> r.Some? && i <= r.value
  {
    if lines == [] then None
    else
      var n := |lines| - 1;
      if lines[n].Stats? && lines[n].name == suite then Some(n) else StatsAt(lines[..n], suite)
  }

  lemma {:induction false} StatsFound(lines: seq<Line>, suite: Text)
    ensures LastStats(lines, suite) == if StatsAt(lines, suite).Some? then Some(lines[StatsAt(lines, suite).value]) else None
  {
    if lines != [] {
      StatsFound(lines[..|lines| - 1], suite);
    }
  }

  ghost predicate ReadUpTo(body: seq<Line>, indent: nat, s: Summary, r: Summary) {
    && r.tests == s.tests + ResultsAt(body, indent) && Tallied(r) && r.reportPresent == s.reportPresent
    && r.plan == if s.plan.Some? then s.plan else PlanOf(body, indent)
  }

  function PlanOf(lines: seq<Line>, indent: nat): Option<nat> {
    var k := FirstPlan(lines, indent);
    if k.Some? then Some(lines[k.value].count) else None
  }

  lemma PlanOneMore(line: Line, rest: seq<Line>, indent: nat)
    ensures PlanOf([line] + rest, indent) == if line.Plan? && line.indent == indent then Some(line.count) else PlanOf(rest, indent)
  {
    var all := [line] + rest;
    assert all[0] == line && all[1..] == rest && forall i :: 0 <= i < |rest| ==> all[i + 1] == rest[i];
  }

  lemma ResultsOneMore(line: Line, rest: seq<Line>, indent: nat)
    ensures ResultsAt([line] + rest, indent) == (if AtIndent(indent, line) then [Read(line)] else []) + ResultsAt(rest, indent)
  {
    assert ([line] + rest)[1..] == rest;
  }

  lemma ReadOneMore(line: Line, rest: seq<Line>, indent: nat, s: Summary, r: Summary)
    requires Tallied(s) && ReadUpTo(rest, indent, ScanLine(line, indent, s), r)
    ensures ReadUpTo([line] + rest, indent, s, r)
  {
    PlanOneMore(line, rest, indent);
    ResultsOneMore(line, rest, indent);
    hide PlanOf, ResultsAt, Tallied;
  }

  /** A scan takes in the lines up to the first shallower result. */
  lemma {:induction false} ScanReads(body: seq<Line>, end: seq<Line>, indent: nat, s: Summary)
    requires forall line :: line in body ==> !EndsScan(line, indent)
    requires Tallied(s) && (end == [] || EndsScan(end[0], indent))
    ensures ReadUpTo(body, indent, s, Scan(body + end, indent, s))
    decreases |body|
  {
    if body == [] {
      assert body + end == end;
    } else {
      var line, rest := body[0], body[1..];
      assert line in body && forall l :: l in rest ==> l in body;
      assert (body + end)[0] == line && (body + end)[1..] == rest + end;
      if line.Result? {
        RecordTallied(s, line);
      }
      ScanReads(rest, end, indent, ScanLine(line, indent, s));
      hide ReadUpTo;
      ReadOneMore(line, rest, indent, s, Scan(rest + end, indent, ScanLine(line, indent, s)));
      assert body == [line] + rest;
    }
  }

  /** No stats line, or one whose three numbers are those counted. */
  ghost predicate StatsSame(after: seq<Line>, suite: Text, r: Summary) {
    var k := StatsAt(after, suite);
    k.Some? ==>
      var stats := after[k.value];
      stats.passed == r.passed && stats.failed == r.failed && stats.skipped == r.skipped
  }

  /** Any text with a header of the suite, the last of them followed by `body` and then the
      first shallower result, if there is one: the tests are those of the results in `body` at
      the header's indent, and the report is complete exactly when the first plan there is their
      number and the suite's last stats line, wherever it stands, has their counts. */
  lemma {:induction false} ParseMeans(before: seq<Line>, top: Line, body: seq<Line>, end: seq<Line>, suite: Text)
    requires top.Header? && top.name == suite
    requires forall line :: line in body + end ==> !(line.Header? && line.name == suite)
    requires forall line :: line in body ==> !(line.Result? && line.indent < top.indent)
    requires end == [] || (end[0].Result? && end[0].indent < top.indent)
    ensures var r, plan := Parse(before + [top] + (body + end), suite), FirstPlan(body, top.indent);
            && r.reportPresent && r.tests == ResultsAt(body, top.indent) && Tallied(r)
            && r.plan == (if plan.Some? then Some(body[plan.value].count) else None)
            && (r.complete <==> plan.Some? && body[plan.value].count == |r.tests| && StatsSame(body + end, suite, r))
  {
    LastHeaderAt(before, top, body + end, suite);
    DropFront(before + [top], body + end, 0);
    ScanReads(body, end, top.indent, EMPTY.(reportPresent := true));
    StatsFound(body + end, suite);
    hide Scan, LastHeader, LastStats, ResultsAt;
  }
}
