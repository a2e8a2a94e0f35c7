/** What a bisect run means: its marks are its iterations, its conclusion follows from the
    verdicts, it ends, and no report is counted twice. */
module BisectSoundness {
  import opened Wrappers
  import opened History
  import opened Bisect

  // ----- the invariant of the state directory -------------------------------------

  function MarksOf(iterations: seq<Iteration>): (marks: seq<Mark>)
    ensures |marks| == |iterations|
    ensures forall i :: 0 <= i < |marks| ==> marks[i] == Mark(iterations[i].candidate, iterations[i].verdict)
  {
    seq(|iterations|, i requires 0 <= i < |iterations| => Mark(iterations[i].candidate, iterations[i].verdict))
  }

  predicate EndpointsTested(s: State) {
    && |s.iterations| >= 2
    && s.iterations[0] == Iteration(VerifyBad, s.badSha, Bad)
    && s.iterations[1] == Iteration(VerifyGood, s.goodSha, Good)
    && forall i :: 2 <= i < |s.iterations| ==> s.iterations[i].phase == Bisecting
  }

  /** Git has been told exactly what the recorded iterations found, and nothing at all
      before both endpoints were tested, bad and good. */
  predicate Consistent(g: Dag, disk: Disk) {
    match disk.state
    case None => disk.marks == []
    case Some(s) =>
      && s.goodSha < |g| && s.badSha < |g| && s.candidate < |g|
      && (forall i :: 0 <= i < |s.iterations| ==> s.iterations[i].candidate < |g|)
      && (disk.marks != [] ==> disk.marks == MarksOf(s.iterations) && EndpointsTested(s))
      && (s.outcome == Running ==> match s.phase
          case VerifyBad => s.steps == 0 && s.iterations == [] && s.candidate == s.badSha && disk.marks == []
          case VerifyGood =>
            s.steps == 0 && s.iterations == [Iteration(VerifyBad, s.badSha, Bad)]
            && s.candidate == s.goodSha && disk.marks == []
          case Bisecting => disk.marks != [] && s.steps == |s.iterations| - 2)
      && (s.outcome != FirstBadFound ==> s.firstBad.None?)
      && (s.outcome == FirstBadFound ==> disk.marks != [] && Concluded(g, disk.marks, s.firstBad))
  }

  /** A concluded commit is the one git was left suspecting. */
  predicate Concluded(g: Dag, marks: seq<Mark>, firstBad: Option<Commit>) {
    && Known(g, marks)
    && (firstBad.Some? ==> CurrentBad(marks) == firstBad && Suspects(g, marks) == {firstBad.value})
  }

  /** Git answers about commits of its own history and declares honestly. */
  predicate HonestCall(g: Dag, disk: Disk, call: Call) {
    && (call.goodSha.Some? ==> call.goodSha.value < |g|)
    && (call.badSha.Some? ==> call.badSha.value < |g|)
    && (call.head.Some? ==> call.head.value < |g|)
    && (disk.state.Some? && !Stale(disk, call.inputs) && disk.state.value.phase == Bisecting ==>
          var s := disk.state.value;
          var marks := disk.marks + [Mark(s.candidate, VerdictOf(call.reports, s.decidedAt, call.inputs.maxRuntime))];
          Known(g, marks) && HonestReply(g, marks, call.reply))
  }

  lemma BadEndpointConsistent(g: Dag, disk: Disk, call: Call)
    requires Consistent(g, disk) && HonestCall(g, disk, call)
    requires !Stale(disk, call.inputs) && disk.state.value.phase == VerifyBad
    ensures Consistent(g, Advance(disk, call).disk)
  {
  }

  lemma GoodEndpointConsistent(g: Dag, disk: Disk, call: Call)
    requires Consistent(g, disk) && HonestCall(g, disk, call)
    requires !Stale(disk, call.inputs) && disk.state.value.phase == VerifyGood
    ensures Consistent(g, Advance(disk, call).disk)
  {
    var s := disk.state.value;
    var after := Advance(disk, call).disk;
    if after.marks != [] {
      var iterations := after.state.value.iterations;
      assert iterations == [Iteration(VerifyBad, s.badSha, Bad), Iteration(VerifyGood, s.goodSha, Good)];
      assert after.marks == MarksOf(iterations);
    }
  }

  lemma FeedConsistent(g: Dag, disk: Disk, call: Call)
    requires Consistent(g, disk) && HonestCall(g, disk, call)
    requires !Stale(disk, call.inputs) && disk.state.value.phase == Bisecting
    ensures Consistent(g, Advance(disk, call).disk)
  {
    var s := disk.state.value;
    var after := Advance(disk, call).disk;
    var iterations := after.state.value.iterations;
    var verdict := VerdictOf(call.reports, s.decidedAt, call.inputs.maxRuntime);
    assert iterations == s.iterations + [Iteration(Bisecting, s.candidate, verdict)];
    assert after.marks == MarksOf(iterations);
    assert EndpointsTested(after.state.value);
  }

  lemma ResetConsistent(g: Dag, disk: Disk, call: Call)
    requires HonestCall(g, disk, call) && Stale(disk, call.inputs)
    ensures Consistent(g, Advance(disk, call).disk)
  {
  }

  lemma AdvanceConsistent(g: Dag, disk: Disk, call: Call)
    requires Consistent(g, disk) && HonestCall(g, disk, call)
    ensures Consistent(g, Advance(disk, call).disk)
  {
    hide Consistent, HonestCall, Advance;
    if Stale(disk, call.inputs) {
      ResetConsistent(g, disk, call);
    } else {
      match disk.state.value.phase
      case VerifyBad => BadEndpointConsistent(g, disk, call);
      case VerifyGood => GoodEndpointConsistent(g, disk, call);
      case Bisecting => FeedConsistent(g, disk, call);
    }
  }

  // ----- soundness of the conclusion ----------------------------------------------

  ghost predicate Judged(s: State, c: Commit, v: Verdict) {
    exists i :: 0 <= i < |s.iterations| && s.iterations[i].candidate == c && s.iterations[i].verdict == v
  }

  lemma MarkWasJudged(s: State, m: Mark)
    requires m in MarksOf(s.iterations)
    ensures Judged(s, m.commit, m.verdict)
  {
    var i :| 0 <= i < |MarksOf(s.iterations)| && MarksOf(s.iterations)[i] == m;
    assert s.iterations[i].candidate == m.commit;
  }

  /** The commit a run names was judged bad, both endpoints were tested, and each of its
      parents is an ancestor of (or is) a commit judged good. */
  lemma FirstBadIsSound(g: Dag, disk: Disk, c: Commit)
    requires Consistent(g, disk) && disk.state.Some?
    requires disk.state.value.outcome == FirstBadFound && disk.state.value.firstBad == Some(c)
    ensures c < |g| && EndpointsTested(disk.state.value) && Judged(disk.state.value, c, Bad)
    ensures forall p :: p in g[c] ==>
              exists good: Commit :: good < |g| && Judged(disk.state.value, good, Good) && p in Ancestors(g, good)
  {
    var s := disk.state.value;
    var marks := disk.marks;
    MarkWasJudged(s, Mark(c, Bad));
    assert c in Suspects(g, marks);
    forall p | p in g[c]
      ensures exists good: Commit :: good < |g| && Judged(s, good, Good) && p in Ancestors(g, good)
    {
      assert p in Ancestors(g, p) && p in Ancestors(g, c);
      assert p !in Suspects(g, marks) && p in Reachable(g, Goods(marks));
      var good :| good in Goods(marks) && p in Ancestors(g, good);
      assert Mark(good, Good) in marks;
      MarkWasJudged(s, Mark(good, Good));
    }
  }

  /** A property that, once lost, every descendant has lost: "the suite passes". */
  ghost predicate ClosedUnderAncestors(g: Dag, works: Commit -> bool) {
    forall c: Commit, a: Commit :: c < |g| && works(c) && a in Ancestors(g, c) ==> works(a)
  }

  ghost predicate Truthful(s: State, works: Commit -> bool) {
    forall i :: 0 <= i < |s.iterations| ==> Agrees(s.iterations[i], works)
  }

  ghost predicate Agrees(it: Iteration, works: Commit -> bool) {
    match it.verdict
    case Good => works(it.candidate)
    case Bad => !works(it.candidate)
    case Skip => true
  }

  /** With truthful verdicts on a regression, the named commit is the first that fails. */
  lemma FirstBadIsTheRegression(g: Dag, disk: Disk, c: Commit, works: Commit -> bool)
    requires Consistent(g, disk) && disk.state.Some?
    requires disk.state.value.outcome == FirstBadFound && disk.state.value.firstBad == Some(c)
    requires ClosedUnderAncestors(g, works) && Truthful(disk.state.value, works)
    ensures c < |g| && !works(c)
    ensures forall a :: a in Ancestors(g, c) && a != c ==> works(a)
  {
    FirstBadIsSound(g, disk, c);
    var s := disk.state.value;
    forall a | a in Ancestors(g, c) && a != c
      ensures works(a)
    {
      var p :| p in g[c] && a in Ancestors(g, p);
      var good: Commit :| good < |g| && Judged(s, good, Good) && p in Ancestors(g, good);
      assert works(good) && works(p);
    }
  }

  /** The phrase is searched in everything git prints, so a run can stop on a subject line that
      quotes it. */
  lemma SubjectLineEndsTheRun(disk: Disk, call: Call, next: Commit)
    requires !Stale(disk, call.inputs) && disk.state.value.phase == Bisecting
    requires disk.state.value.firstBad.None?
    requires call.reply == Named(next, "x86: undo 1234, which is the first bad commit")
    ensures Advance(disk, call).disk.state.value.outcome == FirstBadFound
    ensures Advance(disk, call).disk.state.value.firstBad == None
  {
    var subject := "x86: undo 1234, which is the first bad commit";
    assert FIRST_BAD <= subject[22..];
  }

  // ----- runs ---------------------------------------------------------------------

  /** Successive calls, each reading what the one before wrote. */
  ghost predicate IsRun(disks: seq<Disk>, calls: seq<Call>) {
    && |disks| == |calls| + 1
    && forall i, j :: 0 <= i < |calls| && j == i + 1 ==> disks[j] == Advance(disks[i], calls[i]).disk
  }

  lemma {:induction false} RunConsistent(g: Dag, disks: seq<Disk>, calls: seq<Call>, k: nat)
    requires IsRun(disks, calls) && k <= |calls|
    requires Consistent(g, disks[0])
    requires forall i :: 0 <= i < |calls| ==> HonestCall(g, disks[i], calls[i])
    ensures Consistent(g, disks[k])
  {
    if k > 0 {
      RunConsistent(g, disks, calls, k - 1);
      AdvanceConsistent(g, disks[k - 1], calls[k - 1]);
    }
  }

  function Max(a: int, b: int): int { if a > b then a else b }

  /** How many more calls a running state can take before an outcome is set. */
  function CallsLeft(disk: Disk, inputs: Inputs, maxSteps: int): (n: nat)
    ensures n <= 3 + Max(1, maxSteps)
  {
    if Stale(disk, inputs) then 3 + Max(1, maxSteps) else
    match disk.state.value.phase
    case VerifyBad => 2 + Max(1, maxSteps)
    case VerifyGood => 1 + Max(1, maxSteps)
    case Bisecting => Max(1, maxSteps - disk.state.value.steps)
  }

  predicate Finished(disk: Disk) {
    disk.state.Some? && disk.state.value.outcome != Running
  }

  lemma CallProgresses(disk: Disk, call: Call)
    requires Advance(disk, call).Returned?
    ensures var after := Advance(disk, call).disk;
            Finished(after) || CallsLeft(after, call.inputs, call.maxSteps) < CallsLeft(disk, call.inputs, call.maxSteps)
  {
  }

  /** With fixed inputs, whatever the verdicts and whatever candidates git names, calls that
      return reach an outcome within 3 + max(1, maxSteps) of them. */
  lemma {:induction false} OutcomeWithinBound(disks: seq<Disk>, calls: seq<Call>, inputs: Inputs, maxSteps: int)
    returns (k: nat)
    requires IsRun(disks, calls)
    requires forall i :: 0 <= i < |calls| ==>
               calls[i].inputs == inputs && calls[i].maxSteps == maxSteps && Advance(disks[i], calls[i]).Returned?
    requires |calls| >= CallsLeft(disks[0], inputs, maxSteps)
    ensures 0 < k <= CallsLeft(disks[0], inputs, maxSteps) && k <= |calls| && Finished(disks[k])
    decreases |calls|
  {
    assert disks[1] == Advance(disks[0], calls[0]).disk;
    CallProgresses(disks[0], calls[0]);
    if Finished(disks[1]) {
      k := 1;
    } else {
      var rest := OutcomeWithinBound(disks[1..], calls[1..], inputs, maxSteps);
      k := rest + 1;
    }
  }

  /** A call that raises on a running state changes nothing and happens exactly when git
      refuses to start on endpoints that both tested as expected, so repeating it is the one
      way a run can stall. */
  lemma RaisesExactly(disk: Disk, call: Call)
    requires !Stale(disk, call.inputs)
    ensures Advance(disk, call).Raised? <==>
              && disk.state.value.phase == VerifyGood && !call.startOk
              && VerdictOf(call.reports, disk.state.value.decidedAt, call.inputs.maxRuntime) == Good
    ensures Advance(disk, call).Raised? ==> Advance(disk, call).disk == disk
  {
  }

  // ----- freshness ----------------------------------------------------------------

  /** The report a call's verdict came from. */
  function Used(disk: Disk, call: Call): Option<ReportFile> {
    if Stale(disk, call.inputs) then None else Deciding(call.reports, disk.state.value.decidedAt)
  }

  /** A monotone clock: calls happen in order, and no report is dated after the call that
      reads it. */
  ghost predicate Monotone(calls: seq<Call>) {
    && (forall i, j :: 0 <= i < j < |calls| ==> calls[i].now <= calls[j].now)
    && forall i, f :: 0 <= i < |calls| && f in calls[i].reports ==> f.mtime <= calls[i].now
  }

  lemma {:induction false} DecidedNoEarlier(disks: seq<Disk>, calls: seq<Call>, i: nat, j: nat)
    requires IsRun(disks, calls) && Monotone(calls) && i < j <= |calls|
    requires Advance(disks[i], calls[i]).Returned?
    ensures disks[j].state.Some? ==> disks[j].state.value.decidedAt >= calls[i].now
  {
    assert disks[j] == Advance(disks[j - 1], calls[j - 1]).disk;
    if i < j - 1 {
      DecidedNoEarlier(disks, calls, i, j - 1);
    }
  }

  /** No report write decides two calls: a later verdict comes from a strictly later one,
      whatever calls raised in between. */
  lemma ReportDecidesOnce(disks: seq<Disk>, calls: seq<Call>, i: nat, j: nat)
    requires IsRun(disks, calls) && Monotone(calls) && i < j < |calls|
    requires Advance(disks[i], calls[i]).Returned?
    requires Used(disks[i], calls[i]).Some? && Used(disks[j], calls[j]).Some?
    ensures Used(disks[i], calls[i]).value.mtime < Used(disks[j], calls[j]).value.mtime
  {
    DecidedNoEarlier(disks, calls, i, j);
    assert Used(disks[i], calls[i]).value in calls[i].reports;
  }

  ghost predicate NewestAt(files: seq<ReportFile>, k: nat, f: ReportFile) {
    IsNewest(files, k) && files[k] == f
  }

  /** The newest report, newer than the last decision and readable. */
  ghost predicate IsFresh(files: seq<ReportFile>, decidedAt: int, f: ReportFile) {
    f.mtime > decidedAt && f.content.Report? && exists k: nat :: NewestAt(files, k, f)
  }

  predicate Passes(report: ReportFile, maxRuntime: real) {
    && report.content.Report? && report.content.status == "passed"
    && (maxRuntime == 0.0 || Total(report.content.runtimes) <= maxRuntime)
  }

  predicate Fails(report: ReportFile, maxRuntime: real) {
    report.content.Report? && report.content.status != "untestable" && !Passes(report, maxRuntime)
  }

  lemma DecidingIsFresh(files: seq<ReportFile>, decidedAt: int, f: ReportFile)
    ensures Deciding(files, decidedAt) == Some(f) <==> IsFresh(files, decidedAt, f)
  {
    if files != [] {
      assert NewestAt(files, Newest(files), files[Newest(files)]);
    }
    if k: nat :| NewestAt(files, k, f) {
      var n := Newest(files);
      assert files[n].mtime <= files[k].mtime && files[k].mtime <= files[n].mtime;
      assert n == k;
    }
  }

  /** Good and bad are judged from a fresh report alone; everything else reads as skip. */
  lemma VerdictMeaning(files: seq<ReportFile>, decidedAt: int, maxRuntime: real)
    ensures VerdictOf(files, decidedAt, maxRuntime) == Good <==>
              exists f :: IsFresh(files, decidedAt, f) && Passes(f, maxRuntime)
    ensures VerdictOf(files, decidedAt, maxRuntime) == Bad <==>
              exists f :: IsFresh(files, decidedAt, f) && Fails(f, maxRuntime)
  {
    hide NewestAt, Newest, Total;
    forall f
      ensures Deciding(files, decidedAt) == Some(f) <==> IsFresh(files, decidedAt, f)
    {
      DecidingIsFresh(files, decidedAt, f);
    }
    if Deciding(files, decidedAt).Some? {
      assert IsFresh(files, decidedAt, Deciding(files, decidedAt).value);
    }
  }
}
