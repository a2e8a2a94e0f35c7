/** When a bisect run names the commit it concludes on. Every commit has a subject line, and
    git prints that of the commit it names next. */
module BisectNaming {
  import opened Wrappers
  import opened History
  import opened Bisect
  import opened BisectSoundness

  datatype Repo = Repo(g: Dag, subjects: Commit -> string)

  /** The endpoints a run resolves its inputs to. */
  datatype Ends = Ends(good: Commit, bad: Commit)

  predicate Within(g: Dag, e: Ends) {
    e.good < |g| && e.bad < |g|
  }

  function Marked(marks: seq<Mark>): set<Commit> {
    set m | m in marks :: m.commit
  }

  /** The common ancestors of the endpoints that no other of them descends from. */
  function MergeBases(g: Dag, e: Ends): set<Commit>
    requires Within(g, e)
  {
    var common := Ancestors(g, e.good) * Ancestors(g, e.bad);
    set c | c in common && forall d :: d in common && d != c ==> c !in Ancestors(g, d)
  }

  /** The commits git may name next: a suspect or a merge base of the endpoints, not yet
      marked. */
  function Nameable(g: Dag, e: Ends, marks: seq<Mark>): set<Commit>
    requires Within(g, e) && Known(g, marks)
  {
    Suspects(g, marks) + MergeBases(g, e) - Marked(marks)
  }

  function EndMarks(e: Ends): seq<Mark> {
    [Mark(e.bad, Bad), Mark(e.good, Good)]
  }

  /** The commits a run can be sent to: `rev-list good..bad` and `merge-base --all`, the
      endpoints apart. */
  function Sendable(g: Dag, e: Ends): set<Commit>
    requires Within(g, e)
  {
    Nameable(g, e, EndMarks(e))
  }

  predicate Quotes(repo: Repo, c: Commit) {
    Contains(repo.subjects(c), FIRST_BAD)
  }

  /** Git's reply is about this repository: it names a commit it may, with its subject, and
      says the phrase of its own accord only when it declares. */
  predicate PlainReply(repo: Repo, e: Ends, marks: seq<Mark>, reply: Reply, head: Option<Commit>)
    requires Within(repo.g, e) && Known(repo.g, marks)
  {
    match reply
    case Declared(_) => true
    case Named(next, subject) =>
      next in Nameable(repo.g, e, marks) && subject == repo.subjects(next) && head == Some(next)
    case Message(text) => !Contains(text, FIRST_BAD)
  }

  function Fed(disk: Disk, call: Call): seq<Mark>
    requires disk.state.Some?
  {
    disk.marks + [Mark(disk.state.value.candidate, VerdictOf(call.reports, disk.state.value.decidedAt, call.inputs.maxRuntime))]
  }

  /** Where `bisect start` leaves BISECT_HEAD: on a commit to try, or on the bad endpoint, to
      which HEAD is pinned, when there is none. */
  predicate StartsAt(g: Dag, e: Ends, head: Commit)
    requires Within(g, e)
  {
    head in Sendable(g, e) || (Sendable(g, e) == {} && head == e.bad)
  }

  /** A call that git answers about this history. BISECT_HEAD stays on the candidate when git
      has nowhere else to go, as when only skipped commits are left. */
  predicate PlainCall(repo: Repo, e: Ends, disk: Disk, call: Call)
    requires Within(repo.g, e)
  {
    && HonestCall(repo.g, disk, call)
    && (Stale(disk, call.inputs) ==> call.goodSha == Some(e.good) && call.badSha == Some(e.bad))
    && (!Stale(disk, call.inputs) && disk.state.value.phase == VerifyGood && call.head.Some? ==>
          StartsAt(repo.g, e, call.head.value))
    && (!Stale(disk, call.inputs) && disk.state.value.phase == Bisecting ==>
          && PlainReply(repo, e, Fed(disk, call), call.reply, call.head)
          && (call.head.Some? ==> Onward(repo.g, e, Fed(disk, call), disk.state.value.candidate, call.head.value)))
  }

  predicate Onward(g: Dag, e: Ends, marks: seq<Mark>, candidate: Commit, head: Commit)
    requires Within(g, e) && Known(g, marks)
  {
    head in Nameable(g, e, marks) || head == candidate
  }

  ghost predicate PlainRun(repo: Repo, e: Ends, disks: seq<Disk>, calls: seq<Call>) {
    && Within(repo.g, e) && IsRun(disks, calls) && disks[0] == Disk(None, [])
    && forall i :: 0 <= i < |calls| ==> PlainCall(repo, e, disks[i], calls[i])
  }

  // ----- what a run keeps ---------------------------------------------------------

  /** A run under way only ever holds candidates from among those it can be sent to. */
  predicate Narrowed(g: Dag, e: Ends, marks: seq<Mark>, candidate: Commit)
    requires Within(g, e)
  {
    && Known(g, marks) && e.good in Goods(marks)
    && CurrentBad(marks).Some? && CurrentBad(marks).value in Ancestors(g, e.bad)
    && {e.good, e.bad} <= Marked(marks)
    && StartsAt(g, e, candidate)
  }

  lemma NarrowedSuspects(g: Dag, e: Ends, marks: seq<Mark>, candidate: Commit)
    requires Within(g, e) && Narrowed(g, e, marks, candidate)
    ensures Nameable(g, e, marks) <= Sendable(g, e)
  {
    var ends := EndMarks(e);
    AncestorsTransitive(g, e.bad, CurrentBad(marks).value);
    EndMarksAre(e);
    forall c | c in Nameable(g, e, marks)
      ensures c in Sendable(g, e)
    {
      if c in Suspects(g, marks) {
        assert c !in Reachable(g, Goods(marks));
        assert c !in Ancestors(g, e.good);
        assert c in Ancestors(g, e.bad);
        assert c in Suspects(g, ends);
      }
    }
  }

  lemma EndMarksAre(e: Ends)
    ensures CurrentBad(EndMarks(e)) == Some(e.bad) && Goods(EndMarks(e)) == {e.good}
    ensures Marked(EndMarks(e)) == {e.good, e.bad}
  {
    var m := EndMarks(e);
    assert m[..1] == [Mark(e.bad, Bad)];
    assert m[0] in m && m[1] in m;
  }

  lemma FeedNarrows(g: Dag, e: Ends, marks: seq<Mark>, candidate: Commit, v: Verdict, next: Commit)
    requires Within(g, e) && Narrowed(g, e, marks, candidate) && candidate < |g|
    requires Onward(g, e, marks + [Mark(candidate, v)], candidate, next)
    ensures Narrowed(g, e, marks + [Mark(candidate, v)], next)
    ensures next in Nameable(g, e, marks + [Mark(candidate, v)]) ==> next != candidate && {next, candidate} <= Sendable(g, e)
  {
    var fed := marks + [Mark(candidate, v)];
    assert fed[|fed| - 1] == Mark(candidate, v) && fed[..|fed| - 1] == marks;
    assert Mark(candidate, v) in fed;
    assert forall m :: m in marks ==> m in fed;
    assert candidate in Marked(fed) && Marked(marks) <= Marked(fed);
    StartsBelow(g, e, candidate);
    var good :| good in marks && good.verdict.Good? && good.commit == e.good;
    assert good in fed && e.good in Goods(fed);
    assert Narrowed(g, e, fed, candidate);
    NarrowedSuspects(g, e, fed, candidate);
  }

  lemma SendableBelow(g: Dag, e: Ends, c: Commit)
    requires Within(g, e) && c in Sendable(g, e)
    ensures c in Ancestors(g, e.bad)
  {
    EndMarksAre(e);
  }

  lemma StartsBelow(g: Dag, e: Ends, c: Commit)
    requires Within(g, e) && StartsAt(g, e, c)
    ensures c in Ancestors(g, e.bad)
  {
    if c in Sendable(g, e) {
      SendableBelow(g, e, c);
    }
  }

  /** The invariant of a run: where it can be sent, and that a conclusion without a commit came
      from a quoting subject met second. */
  ghost predicate Keeps(repo: Repo, e: Ends, disk: Disk)
    requires Within(repo.g, e)
  {
    match disk.state
    case None => true
    case Some(s) =>
      && s.goodSha == e.good && s.badSha == e.bad
      && (s.outcome == Running && s.phase == Bisecting ==> Narrowed(repo.g, e, disk.marks, s.candidate))
      && (s.outcome == FirstBadFound && s.firstBad.None? ==> Unnamed(repo, e))
  }

  /** A commit whose subject quotes the phrase, and another one to be sent to before it. */
  ghost predicate Unnamed(repo: Repo, e: Ends)
    requires Within(repo.g, e)
  {
    exists c, h :: c in Sendable(repo.g, e) && h in Sendable(repo.g, e) && h != c && Quotes(repo, c)
  }

  lemma StartNarrows(g: Dag, e: Ends, head: Commit)
    requires Within(g, e) && StartsAt(g, e, head)
    ensures Narrowed(g, e, EndMarks(e), head)
  {
    EndMarksAre(e);
    assert e.bad in Ancestors(g, e.bad);
  }

  /** A reply that says the phrase without declaring quotes a subject the run is sent to
      after its candidate. */
  lemma QuoteUnnamed(repo: Repo, e: Ends, disk: Disk, call: Call)
    requires Within(repo.g, e) && disk.state.Some? && Known(repo.g, Fed(disk, call))
    requires var s := disk.state.value; s.candidate < |repo.g| && Narrowed(repo.g, e, disk.marks, s.candidate)
    requires PlainReply(repo, e, Fed(disk, call), call.reply, call.head)
    requires Mentions(call.reply) && !call.reply.Declared?
    ensures Unnamed(repo, e)
  {
    var s, next := disk.state.value, call.reply.next;
    hide VerdictOf, Contains, Nameable;
    FeedNarrows(repo.g, e, disk.marks, s.candidate, VerdictOf(call.reports, s.decidedAt, call.inputs.maxRuntime), next);
    assert Quotes(repo, next);
  }

  lemma FeedStep(disk: Disk, call: Call)
    requires !Stale(disk, call.inputs) && disk.state.value.phase == Bisecting
    ensures var s, after := disk.state.value, Advance(disk, call).disk;
            && after.marks == Fed(disk, call) && after.state.Some?
            && (after.state.value.outcome == Running ==> call.head == Some(after.state.value.candidate))
  {
    hide VerdictOf, Mentions;
  }

  lemma FeedNarrowed(repo: Repo, e: Ends, disk: Disk, call: Call)
    requires Within(repo.g, e) && Consistent(repo.g, disk) && Keeps(repo, e, disk) && PlainCall(repo, e, disk, call)
    requires !Stale(disk, call.inputs) && disk.state.value.phase == Bisecting
    ensures var after := Advance(disk, call).disk;
            after.state.Some? && (after.state.value.outcome == Running ==>
              Narrowed(repo.g, e, after.marks, after.state.value.candidate))
  {
    var s := disk.state.value;
    var verdict := VerdictOf(call.reports, s.decidedAt, call.inputs.maxRuntime);
    assert Fed(disk, call) == disk.marks + [Mark(s.candidate, verdict)];
    FeedStep(disk, call);
    hide VerdictOf, Narrowed, Onward, Unnamed, PlainReply, Advance, Fed;
    if call.head.Some? {
      FeedNarrows(repo.g, e, disk.marks, s.candidate, verdict, call.head.value);
    }
  }

  lemma FeedQuotes(repo: Repo, e: Ends, disk: Disk, call: Call)
    requires Within(repo.g, e) && Consistent(repo.g, disk) && Keeps(repo, e, disk) && PlainCall(repo, e, disk, call)
    requires !Stale(disk, call.inputs) && disk.state.value.phase == Bisecting
    ensures var after := Advance(disk, call).disk;
            after.state.Some? && (after.state.value.outcome == FirstBadFound && after.state.value.firstBad.None? ==>
              Unnamed(repo, e))
  {
    hide VerdictOf, Contains, Narrowed, Onward, Unnamed, PlainReply;
    if Mentions(call.reply) && !call.reply.Declared? {
      QuoteUnnamed(repo, e, disk, call);
    }
  }

  lemma FeedKeeps(repo: Repo, e: Ends, disk: Disk, call: Call)
    requires Within(repo.g, e) && Consistent(repo.g, disk) && Keeps(repo, e, disk) && PlainCall(repo, e, disk, call)
    requires !Stale(disk, call.inputs) && disk.state.value.phase == Bisecting
    ensures Keeps(repo, e, Advance(disk, call).disk)
  {
    FeedNarrowed(repo, e, disk, call);
    FeedQuotes(repo, e, disk, call);
    hide VerdictOf, Narrowed, Unnamed, PlainCall, Mentions, Consistent;
  }

  lemma StartKeeps(repo: Repo, e: Ends, disk: Disk, call: Call)
    requires Within(repo.g, e) && Consistent(repo.g, disk) && Keeps(repo, e, disk) && PlainCall(repo, e, disk, call)
    requires !Stale(disk, call.inputs) && disk.state.value.phase == VerifyGood
    ensures Keeps(repo, e, Advance(disk, call).disk)
  {
    var s := disk.state.value;
    assert disk.marks + [Mark(s.badSha, Bad), Mark(s.goodSha, Good)] == EndMarks(e);
    hide VerdictOf, Narrowed, StartsAt, Unnamed, EndMarks;
    if call.head.Some? {
      StartNarrows(repo.g, e, call.head.value);
    }
  }

  lemma AdvanceKeeps(repo: Repo, e: Ends, disk: Disk, call: Call)
    requires Within(repo.g, e) && Consistent(repo.g, disk) && Keeps(repo, e, disk) && PlainCall(repo, e, disk, call)
    ensures Keeps(repo, e, Advance(disk, call).disk)
  {
    hide VerdictOf, Narrowed, Unnamed;
    if Stale(disk, call.inputs) {
      assert Advance(disk, call) == Reset(call);
    } else {
      match disk.state.value.phase
      case Bisecting => FeedKeeps(repo, e, disk, call);
      case VerifyGood => StartKeeps(repo, e, disk, call);
      case VerifyBad =>
    }
  }

  lemma {:induction false} RunKeeps(repo: Repo, e: Ends, disks: seq<Disk>, calls: seq<Call>, k: nat)
    requires PlainRun(repo, e, disks, calls) && k <= |calls|
    ensures Consistent(repo.g, disks[k]) && Keeps(repo, e, disks[k])
  {
    if k > 0 {
      RunKeeps(repo, e, disks, calls, k - 1);
      AdvanceConsistent(repo.g, disks[k - 1], calls[k - 1]);
      AdvanceKeeps(repo, e, disks[k - 1], calls[k - 1]);
    }
  }

  // ----- a run that concludes without a commit ------------------------------------

  function ReportAt(t: int, status: string): seq<ReportFile> {
    [ReportFile("report.json", t, Report(status, []))]
  }

  lemma ReportDecides(t: int, decidedAt: int)
    requires decidedAt < t
    ensures VerdictOf(ReportAt(t, "failed"), decidedAt, 0.0) == Bad
    ensures VerdictOf(ReportAt(t, "passed"), decidedAt, 0.0) == Good
  {
  }

  function AnyInputs(): Inputs {
    Inputs("good", "bad", ["suite"], "kunit", "", 0.0, map[])
  }

  function CallAt(e: Ends, t: int, reports: seq<ReportFile>, reply: Reply, head: Option<Commit>): Call {
    Call(AnyInputs(), 20, reports, t, Some(e.good), Some(e.bad), true, reply, head)
  }

  /** Reset, then the bad endpoint fails, the good one passes and git names `h`. */
  function Opening(e: Ends, h: Commit): seq<Call> {
    [CallAt(e, 0, [], Message(""), None),
     CallAt(e, 1, ReportAt(1, "failed"), Message(""), None),
     CallAt(e, 2, ReportAt(2, "passed"), Message(""), Some(h))]
  }

  function Midway(e: Ends, phase: Phase, candidate: Commit, t: int, iterations: seq<Iteration>): State {
    State(AnyInputs(), e.good, e.bad, phase, candidate, t, 0, iterations, Running, None)
  }

  function Fresh(e: Ends): Disk {
    Disk(Some(Midway(e, VerifyBad, e.bad, 0, [])), [])
  }

  function BadDone(e: Ends): Disk {
    Disk(Some(Midway(e, VerifyGood, e.good, 1, [Iteration(VerifyBad, e.bad, Bad)])), [])
  }

  function Started(e: Ends, h: Commit): Disk {
    Disk(Some(Midway(e, Bisecting, h, 2, [Iteration(VerifyBad, e.bad, Bad), Iteration(VerifyGood, e.good, Good)])), EndMarks(e))
  }

  function Opened(e: Ends, h: Commit): seq<Disk> {
    [Disk(None, []), Fresh(e), BadDone(e), Started(e, h)]
  }

  lemma ResetStep(repo: Repo, e: Ends)
    requires Within(repo.g, e)
    ensures var call := CallAt(e, 0, [], Message(""), None);
            PlainCall(repo, e, Disk(None, []), call) && Advance(Disk(None, []), call).disk == Fresh(e)
  {
  }

  lemma BadStep(repo: Repo, e: Ends)
    requires Within(repo.g, e)
    ensures var call := CallAt(e, 1, ReportAt(1, "failed"), Message(""), None);
            PlainCall(repo, e, Fresh(e), call) && Advance(Fresh(e), call).disk == BadDone(e)
  {
    hide VerdictOf;
    ReportDecides(1, 0);
    assert [] + [Iteration(VerifyBad, e.bad, Bad)] == [Iteration(VerifyBad, e.bad, Bad)];
  }

  lemma GoodStep(repo: Repo, e: Ends, h: Commit)
    requires Within(repo.g, e) && h in Sendable(repo.g, e)
    ensures var call := CallAt(e, 2, ReportAt(2, "passed"), Message(""), Some(h));
            PlainCall(repo, e, BadDone(e), call) && Advance(BadDone(e), call).disk == Started(e, h)
  {
    SendableBelow(repo.g, e, h);
    hide VerdictOf, Sendable;
    ReportDecides(2, 1);
    var bad, good := Iteration(VerifyBad, e.bad, Bad), Iteration(VerifyGood, e.good, Good);
    assert [bad] + [good] == [bad, good] && [] + EndMarks(e) == EndMarks(e);
  }

  /** Git refusing to start: the call raises, and the next one finds the same state. */
  lemma RefusedStartStalls(e: Ends)
    ensures var call := CallAt(e, 2, ReportAt(2, "passed"), Message(""), None).(startOk := false);
            Advance(BadDone(e), call) == Raised(BadDone(e))
  {
    hide VerdictOf;
    ReportDecides(2, 1);
  }

  lemma OpeningRuns(repo: Repo, e: Ends, h: Commit)
    requires Within(repo.g, e) && h in Sendable(repo.g, e)
    ensures PlainRun(repo, e, Opened(e, h), Opening(e, h))
  {
    hide PlainCall, Advance, Fresh, BadDone, Started, CallAt, Sendable;
    ResetStep(repo, e);
    BadStep(repo, e);
    GoodStep(repo, e, h);
  }

  lemma {:induction false} SkipMarks(e: Ends, h: Commit)
    ensures var fed := EndMarks(e) + [Mark(h, Skip)];
            Goods(fed) == {e.good} && Marked(fed) == {e.good, e.bad, h} && CurrentBad(fed) == Some(e.bad)
  {
    var fed := EndMarks(e) + [Mark(h, Skip)];
    EndMarksAre(e);
    assert fed[..2] == EndMarks(e) && CurrentBad(fed) == Some(e.bad);
    assert fed[0] == Mark(e.bad, Bad) && fed[1] == Mark(e.good, Good) && fed[2] == Mark(h, Skip);
  }

  lemma {:induction false} SkipLeavesNameable(g: Dag, e: Ends, c: Commit, h: Commit)
    requires Within(g, e) && c in Sendable(g, e) && h in Sendable(g, e) && h != c
    ensures var fed := EndMarks(e) + [Mark(h, Skip)]; Known(g, fed) && c in Nameable(g, e, fed)
  {
    EndMarksAre(e);
    SkipMarks(e, h);
    SendableBelow(g, e, h);
    hide Goods, Marked, CurrentBad, MergeBases;
  }

  /** Skipping `h`, which no report decides, may send the run to `c`... */
  function QuotingCall(repo: Repo, e: Ends, c: Commit): Call {
    CallAt(e, 3, [], Named(c, repo.subjects(c)), Some(c))
  }

  lemma SkipIsFed(repo: Repo, e: Ends, c: Commit, h: Commit)
    ensures Fed(Started(e, h), QuotingCall(repo, e, c)) == EndMarks(e) + [Mark(h, Skip)]
    ensures !Stale(Started(e, h), AnyInputs()) && Started(e, h).state.value.phase == Bisecting
  {
  }

  lemma SkipIsPlain(repo: Repo, e: Ends, c: Commit, h: Commit)
    requires Within(repo.g, e) && c in Sendable(repo.g, e) && h in Sendable(repo.g, e) && h != c
    ensures PlainCall(repo, e, Started(e, h), QuotingCall(repo, e, c))
  {
    SkipLeavesNameable(repo.g, e, c, h);
    SendableBelow(repo.g, e, c);
    SkipIsFed(repo, e, c, h);
    var marks, disk := EndMarks(e) + [Mark(h, Skip)], Started(e, h);
    assert disk.marks + [Mark(disk.state.value.candidate, Skip)] == marks;
    hide Sendable, Nameable, Known, Contains, Fed, VerdictOf, EndMarks;
    assert PlainReply(repo, e, marks, Named(c, repo.subjects(c)), Some(c));
  }

  /** ...whose subject ends it. */
  lemma QuoteEnds(repo: Repo, e: Ends, c: Commit, h: Commit)
    requires Quotes(repo, c)
    ensures var s := Advance(Started(e, h), QuotingCall(repo, e, c)).disk.state;
            s.Some? && s.value.outcome == FirstBadFound && s.value.firstBad.None?
  {
    hide Contains, VerdictOf;
  }

  lemma OneMoreCall(repo: Repo, e: Ends, disks: seq<Disk>, calls: seq<Call>, disk: Disk, call: Call)
    requires PlainRun(repo, e, disks, calls) && disks[|calls|] == disk && PlainCall(repo, e, disk, call)
    ensures PlainRun(repo, e, disks + [Advance(disk, call).disk], calls + [call])
  {
    hide PlainCall, Advance;
    var d, k := disks + [Advance(disk, call).disk], calls + [call];
    forall i, j | 0 <= i < |k| && j == i + 1
      ensures d[j] == Advance(d[i], k[i]).disk
    {
      if i < |calls| {
        assert d[j] == disks[j] && d[i] == disks[i] && k[i] == calls[i];
      }
    }
    forall i | 0 <= i < |k|
      ensures PlainCall(repo, e, d[i], k[i])
    {
      if i < |calls| {
        assert d[i] == disks[i] && k[i] == calls[i];
      }
    }
  }

  lemma UnnamedRun(repo: Repo, e: Ends) returns (disks: seq<Disk>, calls: seq<Call>)
    requires Within(repo.g, e) && Unnamed(repo, e)
    ensures PlainRun(repo, e, disks, calls) && UnnamedAt(disks, |calls|)
  {
    var c, h :| c in Sendable(repo.g, e) && h in Sendable(repo.g, e) && h != c && Quotes(repo, c);
    hide PlainRun, PlainCall, Advance, Sendable, Quotes, Started, QuotingCall;
    OpeningRuns(repo, e, h);
    SkipIsPlain(repo, e, c, h);
    QuoteEnds(repo, e, c, h);
    OneMoreCall(repo, e, Opened(e, h), Opening(e, h), Started(e, h), QuotingCall(repo, e, c));
    calls := Opening(e, h) + [QuotingCall(repo, e, c)];
    disks := Opened(e, h) + [Advance(Started(e, h), QuotingCall(repo, e, c)).disk];
  }

  ghost predicate UnnamedAt(disks: seq<Disk>, k: nat) {
    && k < |disks| && disks[k].state.Some?
    && disks[k].state.value.outcome == FirstBadFound && disks[k].state.value.firstBad.None?
  }

  /** Whatever the reports and whatever git may answer, no run concludes without naming a
      commit. */
  ghost predicate AlwaysNames(repo: Repo, e: Ends)
    requires Within(repo.g, e)
  {
    forall disks, calls, k: nat :: PlainRun(repo, e, disks, calls) ==> !UnnamedAt(disks, k)
  }

  /** "A first bad commit was found" always names one exactly when no commit the run can be
      sent to quotes the phrase in its subject, unless it is the only one: the phrase is
      searched in all that git prints, and git prints a subject with every candidate it names
      after the first. */
  lemma ConclusionNamesACommitExactly(repo: Repo, e: Ends)
    requires Within(repo.g, e)
    ensures AlwaysNames(repo, e) <==>
              forall c :: c in Sendable(repo.g, e) && Quotes(repo, c) ==> Sendable(repo.g, e) == {c}
  {
    if Unnamed(repo, e) {
      var disks, calls := UnnamedRun(repo, e);
      assert !AlwaysNames(repo, e);
      var c, h :| c in Sendable(repo.g, e) && h in Sendable(repo.g, e) && h != c && Quotes(repo, c);
      assert Sendable(repo.g, e) != {c};
    } else {
      forall disks, calls, k: nat | PlainRun(repo, e, disks, calls)
        ensures !UnnamedAt(disks, k)
      {
        if k < |disks| {
          RunKeeps(repo, e, disks, calls, k);
        }
      }
      forall c | c in Sendable(repo.g, e) && Quotes(repo, c)
        ensures Sendable(repo.g, e) == {c}
      {
        assert forall h :: h in Sendable(repo.g, e) ==> h == c;
      }
    }
  }
}
