/** What one bisect call does with a run: when it starts over, how it ends it and where it sends
    it next. */
module BisectSteps {
  import opened Wrappers
  import opened History
  import opened Bisect

  /** The state on disk is of a run with these inputs that has not ended. */
  predicate Underway(disk: Disk, inputs: Inputs) {
    disk.state.Some? && disk.state.value.inputs == inputs && disk.state.value.outcome == Running
  }

  function Judged(disk: Disk, call: Call): Verdict
    requires disk.state.Some?
  {
    VerdictOf(call.reports, disk.state.value.decidedAt, call.inputs.maxRuntime)
  }

  ghost predicate Says(text: string) {
    exists i :: 0 <= i <= |text| && "is the first bad commit" <= text[i..]
  }

  /** What git prints has the phrase: always when it declares, and else when a subject or a
      message quotes it. */
  ghost predicate SaysFirstBad(reply: Reply) {
    reply.Declared? || (reply.Named? && Says(reply.subject)) || (reply.Message? && Says(reply.text))
  }

  /** A bisect that git was asked to start, and did. */
  predicate Starts(disk: Disk, call: Call)
    requires disk.state.Some?
  {
    disk.state.value.phase == VerifyGood && Judged(disk, call) == Good && call.startOk
  }

  /** How a run stands after a call that returns. */
  ghost predicate EndsAs(disk: Disk, call: Call, outcome: Outcome)
    requires disk.state.Some?
  {
    var s, v := disk.state.value, Judged(disk, call);
    match outcome
    case NotReproducibleStandalone => s.phase == VerifyBad && v == Good
    case EndpointUntestable => s.phase != Bisecting && v == Skip
    case GoodEndpointFailed => s.phase == VerifyGood && v == Bad
    case FirstBadFound => s.phase == Bisecting && SaysFirstBad(call.reply)
    case Inconclusive =>
      call.head.None? && (Starts(disk, call) || (s.phase == Bisecting && !SaysFirstBad(call.reply)))
    case MaxStepsExceeded =>
      s.phase == Bisecting && !SaysFirstBad(call.reply) && call.head.Some? && s.steps + 1 >= call.maxSteps
    case Running =>
      || (s.phase == VerifyBad && v == Bad)
      || (Starts(disk, call) && call.head.Some?)
      || (s.phase == Bisecting && !SaysFirstBad(call.reply) && call.head.Some? && s.steps + 1 < call.maxSteps)
  }

  lemma MentionsExactly(reply: Reply)
    ensures Mentions(reply) <==> SaysFirstBad(reply)
  {
  }

  /** Every outcome, exactly when it is set. */
  lemma OutcomeExactly(disk: Disk, call: Call, outcome: Outcome)
    requires Underway(disk, call.inputs) && Advance(disk, call).Returned?
    ensures var after := Advance(disk, call).disk.state;
            after.Some? && (after.value.outcome == outcome <==> EndsAs(disk, call, outcome))
  {
    MentionsExactly(call.reply);
    hide Mentions, SaysFirstBad, VerdictOf;
  }

  /** A bisecting call in which git declares a commit ends the run on it. */
  lemma DeclarationConcludes(disk: Disk, call: Call, c: Commit)
    requires Underway(disk, call.inputs) && disk.state.value.phase == Bisecting
    requires call.reply == Declared(c)
    ensures Advance(disk, call).Returned?
    ensures var after := Advance(disk, call).disk.state;
            after.Some? && after.value.outcome == FirstBadFound && after.value.firstBad == Some(c)
  {
    hide VerdictOf;
  }

  /** Where a run goes on: to the good endpoint once the bad one failed, and then to whatever
      git has checked out, one step further. */
  lemma GoesOnTo(disk: Disk, call: Call)
    requires Underway(disk, call.inputs) && Advance(disk, call).Returned?
    requires Advance(disk, call).disk.state.Some? && Advance(disk, call).disk.state.value.outcome == Running
    ensures var s, after := disk.state.value, Advance(disk, call).disk.state.value;
            if s.phase == VerifyBad then after.phase == VerifyGood && after.candidate == s.goodSha
            else after.phase == Bisecting && call.head == Some(after.candidate)
    ensures var s, after := disk.state.value, Advance(disk, call).disk.state.value;
            after.steps == s.steps + if s.phase == Bisecting then 1 else 0
  {
    hide VerdictOf, Mentions;
  }

  /** What every call that returns writes down: the verdict on its candidate, and when. The
      inputs and the endpoints stay. Git is told the verdict while bisecting, and both endpoints
      when a bisect starts. */
  lemma StepIsRecorded(disk: Disk, call: Call)
    requires Underway(disk, call.inputs) && Advance(disk, call).Returned?
    ensures var s, after := disk.state.value, Advance(disk, call).disk;
            && after.state.Some?
            && after.state.value.iterations == s.iterations + [Iteration(s.phase, s.candidate, Judged(disk, call))]
            && after.state.value.decidedAt == call.now
            && (after.state.value.inputs, after.state.value.goodSha, after.state.value.badSha) == (s.inputs, s.goodSha, s.badSha)
            && after.marks == disk.marks
                 + if s.phase == Bisecting then [Mark(s.candidate, Judged(disk, call))]
                   else if Starts(disk, call) then [Mark(s.badSha, Bad), Mark(s.goodSha, Good)]
                   else []
    ensures var after := Advance(disk, call).disk.state.value;
            after.firstBad.Some? ==> disk.state.value.firstBad == after.firstBad || call.reply == Declared(after.firstBad.value)
  {
    hide VerdictOf, Mentions;
  }

  /** Without such a state the run starts over on the bad endpoint, when both inputs resolve. */
  lemma StartsOver(disk: Disk, call: Call)
    requires !Underway(disk, call.inputs)
    ensures Advance(disk, call).Returned? <==> call.goodSha.Some? && call.badSha.Some?
    ensures Advance(disk, call).disk.marks == []
    ensures Advance(disk, call).disk.state ==
              if call.goodSha.None? || call.badSha.None? then None
              else Some(State(call.inputs, call.goodSha.value, call.badSha.value, VerifyBad, call.badSha.value,
                              call.now, 0, [], Running, None))
  {
  }
}
