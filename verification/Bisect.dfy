/** One call of f/kernel/bisect_step.py: the persisted phase machine, the freshness-gated
    verdict and the marks handed to git. */
module Bisect {
  import opened Wrappers
  import opened History

  datatype Verdict = Good | Bad | Skip

  datatype Phase = VerifyBad | VerifyGood | Bisecting

  datatype Outcome =
    | Running
    | NotReproducibleStandalone
    | EndpointUntestable
    | GoodEndpointFailed
    | FirstBadFound
    | Inconclusive
    | MaxStepsExceeded

  datatype Iteration = Iteration(phase: Phase, candidate: Commit, verdict: Verdict)

  /** The inputs that, once changed, reset the state. `maxSteps` is not among them. */
  datatype Inputs = Inputs(
    good: string, bad: string, suites: seq<string>, payload: string, errorRe: string,
    maxRuntime: real, guest: map<string, string>)

  datatype State = State(
    inputs: Inputs, goodSha: Commit, badSha: Commit, phase: Phase, candidate: Commit,
    decidedAt: int, steps: nat, iterations: seq<Iteration>, outcome: Outcome, firstBad: Option<Commit>)

  // ----- the verdict --------------------------------------------------------------

  datatype Content = Unreadable | Report(status: string, runtimes: seq<real>)

  datatype ReportFile = ReportFile(path: string, mtime: int, content: Content)

  function Total(runtimes: seq<real>): real {
    if runtimes == [] then 0.0 else runtimes[0] + Total(runtimes[1..])
  }

  /** The run times of a report, added up. */
  lemma {:induction false} TotalAdds(a: seq<real>, t: real)
    ensures Total([]) == 0.0 && Total(a + [t]) == Total(a) + t
  {
    if a == [] {
      assert [t][1..] == [];
    } else {
      assert (a + [t])[1..] == a[1..] + [t];
      TotalAdds(a[1..], t);
    }
  }

  /** The newest report; the earliest candidate wins a tie. */
  ghost predicate IsNewest(files: seq<ReportFile>, k: nat) {
    && k < |files|
    && (forall i :: 0 <= i < |files| ==> files[i].mtime <= files[k].mtime)
    && (forall i :: 0 <= i < k ==> files[i].mtime < files[k].mtime)
  }

  function Newest(files: seq<ReportFile>): (k: nat)
    requires files != []
    ensures IsNewest(files, k)
  {
    if |files| == 1 then 0 else
    var k, last := Newest(files[..|files| - 1]), |files| - 1;
    if files[last].mtime > files[k].mtime then last else k
  }

  /** The report that decides, if any was written after the last decision. */
  function Deciding(files: seq<ReportFile>, decidedAt: int): Option<ReportFile> {
    if files == [] then None else
    var best := files[Newest(files)];
    if best.mtime <= decidedAt || best.content.Unreadable? then None else Some(best)
  }

  function Judgement(report: ReportFile, maxRuntime: real): Verdict
    requires report.content.Report?
  {
    if report.content.status == "untestable" then Skip
    else if report.content.status != "passed" then Bad
    else if maxRuntime != 0.0 && Total(report.content.runtimes) > maxRuntime then Bad
    else Good
  }

  /** `_fresh_verdict(...) or "skip"`. */
  function VerdictOf(files: seq<ReportFile>, decidedAt: int, maxRuntime: real): Verdict {
    match Deciding(files, decidedAt)
    case None => Skip
    case Some(report) => Judgement(report, maxRuntime)
  }

  // ----- git bisect ---------------------------------------------------------------

  datatype Mark = Mark(commit: Commit, verdict: Verdict)

  /** What `git bisect <verdict> <sha>` prints: the declaration, the next candidate with its
      subject line, or some other message. */
  datatype Reply = Declared(commit: Commit) | Named(next: Commit, subject: string) | Message(text: string)

  const FIRST_BAD := "is the first bad commit"

  predicate Contains(text: string, phrase: string) {
    exists i :: 0 <= i <= |text| && phrase <= text[i..]
  }

  /** `_FIRST_BAD in out`. */
  predicate Mentions(reply: Reply) {
    match reply
    case Declared(_) => true
    case Named(_, subject) => Contains(subject, FIRST_BAD)
    case Message(text) => Contains(text, FIRST_BAD)
  }

  /** `out.split()[0]`, when that is a commit. */
  function FirstWord(reply: Reply): Option<Commit> {
    if reply.Declared? then Some(reply.commit) else None
  }

  function CurrentBad(marks: seq<Mark>): (r: Option<Commit>)
    ensures r.Some? ==> Mark(r.value, Bad) in marks
  {
    if marks == [] then None
    else if marks[|marks| - 1].verdict.Bad? then Some(marks[|marks| - 1].commit)
    else CurrentBad(marks[..|marks| - 1])
  }

  function Goods(marks: seq<Mark>): set<Commit> {
    set m | m in marks && m.verdict.Good? :: m.commit
  }

  predicate Known(g: Dag, marks: seq<Mark>) {
    forall m :: m in marks ==> m.commit < |g|
  }

  /** The commits git still suspects: ancestors of the current bad commit that no good
      commit descends from. */
  function Suspects(g: Dag, marks: seq<Mark>): set<Commit>
    requires Known(g, marks)
  {
    match CurrentBad(marks)
    case None => {}
    case Some(bad) => Ancestors(g, bad) - Reachable(g, Goods(marks))
  }

  /** Git declares a first bad commit only when it is the one suspect left. */
  predicate HonestReply(g: Dag, marks: seq<Mark>, reply: Reply)
    requires Known(g, marks)
  {
    reply.Declared? ==> CurrentBad(marks) == Some(reply.commit) && Suspects(g, marks) == {reply.commit}
  }

  // ----- one call -----------------------------------------------------------------

  /** A call: its inputs, the reports it finds, the clock when it decides, and what git
      answers to each command it may issue. */
  datatype Call = Call(
    inputs: Inputs, maxSteps: int, reports: seq<ReportFile>, now: int,
    goodSha: Option<Commit>, badSha: Option<Commit>, startOk: bool, reply: Reply, head: Option<Commit>)

  /** state.json and the marks of the state clone. */
  datatype Disk = Disk(state: Option<State>, marks: seq<Mark>)

  /** A call that raises writes no state. */
  datatype Advanced = Returned(disk: Disk) | Raised(disk: Disk)

  predicate Stale(disk: Disk, inputs: Inputs) {
    disk.state.None? || disk.state.value.inputs != inputs || disk.state.value.outcome != Running
  }

  function Reset(call: Call): Advanced {
    if call.badSha.None? || call.goodSha.None? then Raised(Disk(None, []))
    else Returned(Disk(Some(State(call.inputs, call.goodSha.value, call.badSha.value, VerifyBad,
                                  call.badSha.value, call.now, 0, [], Running, None)), []))
  }

  function Decide(disk: Disk, call: Call): Advanced
    requires disk.state.Some?
  {
    var s := disk.state.value;
    var verdict := VerdictOf(call.reports, s.decidedAt, call.inputs.maxRuntime);
    var noted := s.(iterations := s.iterations + [Iteration(s.phase, s.candidate, verdict)], decidedAt := call.now);
    match s.phase
    case VerifyBad =>
      Returned(Disk(Some(match verdict
        case Good => noted.(outcome := NotReproducibleStandalone)
        case Bad => noted.(phase := VerifyGood, candidate := s.goodSha)
        case Skip => noted.(outcome := EndpointUntestable)), disk.marks))
    case VerifyGood =>
      (match verdict
       case Bad => Returned(Disk(Some(noted.(outcome := GoodEndpointFailed)), disk.marks))
       case Skip => Returned(Disk(Some(noted.(outcome := EndpointUntestable)), disk.marks))
       case Good =>
         if !call.startOk then Raised(disk) else
         var marks := disk.marks + [Mark(s.badSha, Bad), Mark(s.goodSha, Good)];
         if call.head.Some?
         then Returned(Disk(Some(noted.(phase := Bisecting, candidate := call.head.value)), marks))
         else Returned(Disk(Some(noted.(outcome := Inconclusive)), marks)))
    case Bisecting =>
      var marks := disk.marks + [Mark(s.candidate, verdict)];
      var stepped := noted.(steps := s.steps + 1);
      Returned(Disk(Some(
        if Mentions(call.reply) then stepped.(outcome := FirstBadFound, firstBad := FirstWord(call.reply))
        else if call.head.None? then stepped.(outcome := Inconclusive)
        else if stepped.steps >= call.maxSteps then stepped.(outcome := MaxStepsExceeded)
        else stepped.(candidate := call.head.value)), marks))
  }

  function Advance(disk: Disk, call: Call): Advanced {
    if Stale(disk, call.inputs) then Reset(call) else Decide(disk, call)
  }

  // ----- the imperative step ------------------------------------------------------

  method FreshVerdict(candidates: seq<ReportFile>, decidedAt: int, maxRuntime: real)
    returns (verdict: Option<Verdict>)
    ensures verdict.None? <==> Deciding(candidates, decidedAt).None?
    ensures verdict.Some? ==> verdict.value == Judgement(Deciding(candidates, decidedAt).value, maxRuntime)
    ensures (if verdict.Some? then verdict.value else Skip) == VerdictOf(candidates, decidedAt, maxRuntime)
  {
    var best: Option<nat> := None;
    for i := 0 to |candidates|
      invariant best.None? <==> i == 0
      invariant best.Some? ==> best.value < i && IsNewest(candidates[..i], best.value)
    {
      if best.None? || candidates[i].mtime > candidates[best.value].mtime {
        best := Some(i);
      }
    }
    assert candidates[..|candidates|] == candidates;
    if best.None? || candidates[best.value].mtime <= decidedAt {
      return None;
    }
    var report := candidates[best.value];
    assert best.value == Newest(candidates);
    if report.content.Unreadable? {
      return None;
    }
    if report.content.status == "untestable" {
      return Some(Skip);
    }
    if report.content.status != "passed" {
      return Some(Bad);
    }
    if maxRuntime != 0.0 {
      var total := 0.0;
      for i := 0 to |report.content.runtimes|
        invariant total + Total(report.content.runtimes[i..]) == Total(report.content.runtimes)
      {
        total := total + report.content.runtimes[i];
      }
      if total > maxRuntime {
        return Some(Bad);
      }
    }
    return Some(Good);
  }

  class StateDir {
    var state: Option<State>
    var marks: seq<Mark>

    constructor ()
      ensures state == None && marks == []
    {
      state, marks := None, [];
    }

    method BisectFeed(verdict: Verdict, sha: Commit, answer: Reply) returns (out: Reply)
      modifies this`marks
      ensures out == answer && marks == old(marks) + [Mark(sha, verdict)]
    {
      marks := marks + [Mark(sha, verdict)];
      out := answer;
    }

    method Step(call: Call) returns (raised: bool)
      modifies this
      ensures (if raised then Raised(Disk(state, marks)) else Returned(Disk(state, marks)))
        == Advance(old(Disk(state, marks)), call)
    {
      if Stale(Disk(state, marks), call.inputs) {
        state, marks := None, [];
        if call.badSha.None? || call.goodSha.None? {
          return true;
        }
        state := Some(State(call.inputs, call.goodSha.value, call.badSha.value, VerifyBad, call.badSha.value,
                            call.now, 0, [], Running, None));
        return false;
      }
      var s := state.value;
      var found := FreshVerdict(call.reports, s.decidedAt, call.inputs.maxRuntime);
      var verdict := if found.Some? then found.value else Skip;
      var prev, phase := s.candidate, s.phase;
      match phase {
        case VerifyBad =>
          match verdict {
            case Good => s := s.(outcome := NotReproducibleStandalone);
            case Bad => s := s.(phase := VerifyGood, candidate := s.goodSha);
            case Skip => s := s.(outcome := EndpointUntestable);
          }
        case VerifyGood =>
          match verdict {
            case Good =>
              if !call.startOk {
                return true;
              }
              marks := marks + [Mark(s.badSha, Bad), Mark(s.goodSha, Good)];
              if call.head.Some? {
                s := s.(phase := Bisecting, candidate := call.head.value);
              } else {
                s := s.(outcome := Inconclusive);
              }
            case Bad => s := s.(outcome := GoodEndpointFailed);
            case Skip => s := s.(outcome := EndpointUntestable);
          }
        case Bisecting =>
          var out := BisectFeed(verdict, prev, call.reply);
          s := s.(steps := s.steps + 1);
          if Mentions(out) {
            s := s.(outcome := FirstBadFound, firstBad := FirstWord(out));
          } else if call.head.None? {
            s := s.(outcome := Inconclusive);
          } else if s.steps >= call.maxSteps {
            s := s.(outcome := MaxStepsExceeded);
          } else {
            s := s.(candidate := call.head.value);
          }
      }
      s := s.(iterations := s.iterations + [Iteration(phase, prev, verdict)], decidedAt := call.now);
      state := Some(s);
      return false;
    }
  }
}
