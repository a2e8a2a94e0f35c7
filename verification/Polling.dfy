/** Waiting for a guest job over its journal: the `fetch`/`scan` closures and the poll loops
    of f/runtime_tests/wait.py and f/kunit/wait.py, over the cursor reads of
    f/common/remote.py. The journal only grows, and a cursor is a position in it. */
module Polling {
  import opened Wrappers

  /** Where a record comes from: the unit's own output, the manager's records about the
      unit, the kernel ring buffer, or anything else on the guest. */
  datatype Source = OwnOutput | Lifecycle | Kernel | Elsewhere

  datatype Kind = Starting | ProcessExit(status: string) | Started | FailedToStart | Skipped | Stopped | Plain

  datatype Record = Record(source: Source, kind: Kind, message: string, at: Option<int>)

  type Journal = seq<Record>

  /** `--unit=<unit>` matches the unit's output and the records about it;
      `_TRANSPORT=kernel` matches the ring buffer. */
  datatype Channel = UnitChannel | KernelChannel

  predicate Matches(ch: Channel, r: Record) {
    match ch
    case UnitChannel => r.source.OwnOutput? || r.source.Lifecycle?
    case KernelChannel => r.source.Kernel?
  }

  function Select(js: Journal, ch: Channel): seq<Record> {
    if js == [] then []
    else if Matches(ch, js[0]) then [js[0]] + Select(js[1..], ch)
    else Select(js[1..], ch)
  }

  function Messages(rs: seq<Record>): seq<string> {
    if rs == [] then [] else [rs[0].message] + Messages(rs[1..])
  }

  /** The position after the last matching record, 0 when there is none. */
  function AfterLast(js: Journal, ch: Channel): (n: nat)
    ensures n <= |js|
  {
    if js == [] then 0
    else if Matches(ch, js[|js| - 1]) then |js|
    else AfterLast(js[..|js| - 1], ch)
  }

  /** `journalctl --show-cursor --after-cursor=<cursor>` when the journal has `n` records:
      the new records, and the position after the last of them (unchanged without any). */
  function Fetched(journal: Journal, ch: Channel, cursor: nat, n: nat): (r: (nat, seq<Record>))
    requires cursor <= n <= |journal|
    ensures cursor <= r.0 <= n
  {
    (cursor + AfterLast(journal[cursor..n], ch), Select(journal[cursor..n], ch))
  }

  lemma {:induction false} SelectConcat(a: Journal, b: Journal, ch: Channel)
    ensures Select(a + b, ch) == Select(a, ch) + Select(b, ch)
  {
    if a == [] {
      assert a + b == b;
    } else {
      assert (a + b)[1..] == a[1..] + b;
      SelectConcat(a[1..], b, ch);
    }
  }

  lemma SelectSplit(journal: Journal, i: nat, j: nat, k: nat, ch: Channel)
    requires i <= j <= k <= |journal|
    ensures Select(journal[i..k], ch) == Select(journal[i..j], ch) + Select(journal[j..k], ch)
  {
    assert journal[i..k] == journal[i..j] + journal[j..k];
    SelectConcat(journal[i..j], journal[j..k], ch);
  }

  lemma {:induction false} MessagesConcat(a: seq<Record>, b: seq<Record>)
    ensures Messages(a + b) == Messages(a) + Messages(b)
  {
    if a == [] {
      assert a + b == b;
    } else {
      assert (a + b)[1..] == a[1..] + b;
      MessagesConcat(a[1..], b);
    }
  }

  lemma {:induction false} NothingAfterLast(js: Journal, ch: Channel)
    ensures Select(js[AfterLast(js, ch)..], ch) == []
  {
    if js != [] && !Matches(ch, js[|js| - 1]) {
      var n := |js| - 1;
      var k := AfterLast(js[..n], ch);
      assert js[k..] == js[k..n] + [js[n]] && js[..n][k..] == js[k..n];
      assert Select([js[n]], ch) == [] && AfterLast(js, ch) == k;
      hide Select, AfterLast;
      NothingAfterLast(js[..n], ch);
      SelectConcat(js[k..n], [js[n]], ch);
    }
  }

  /** A reader that has taken in everything up to `seen` resumes from its cursor. */
  predicate CaughtUp(journal: Journal, ch: Channel, cursor: nat, seen: nat) {
    cursor <= seen <= |journal| && Select(journal[cursor..seen], ch) == []
  }

  lemma FetchCatchesUp(journal: Journal, ch: Channel, cursor: nat, n: nat)
    requires cursor <= n <= |journal|
    ensures CaughtUp(journal, ch, Fetched(journal, ch, cursor, n).0, n)
  {
    var part := journal[cursor..n];
    NothingAfterLast(part, ch);
    var next := cursor + AfterLast(part, ch);
    assert part[next - cursor..] == journal[next..n];
  }

  /** Fetching from the cursor yields exactly what was appended since, and leaves the reader
      caught up again: nothing is read twice and nothing is skipped. */
  lemma FetchIsExact(journal: Journal, ch: Channel, start: nat, cursor: nat, seen: nat, n: nat)
    requires start <= cursor && CaughtUp(journal, ch, cursor, seen) && seen <= n <= |journal|
    ensures Select(journal[start..n], ch) == Select(journal[start..seen], ch) + Fetched(journal, ch, cursor, n).1
    ensures CaughtUp(journal, ch, Fetched(journal, ch, cursor, n).0, n)
  {
    SelectSplit(journal, start, seen, n, ch);
    SelectSplit(journal, cursor, seen, n, ch);
    assert Select(journal[cursor..n], ch) == Select(journal[seen..n], ch);
    FetchCatchesUp(journal, ch, cursor, n);
  }

  // ----- the fold over a unit's records -------------------------------------------

  /** The job's outcome so far. `result` is empty until an outcome record arrives. */
  datatype Outcome = Outcome(
    result: string, execStatus: string, startedAt: Option<int>, endedAt: Option<int>, ktap: seq<string>)

  const NOTHING := Outcome("", "", None, None, [])

  /** One record of `scan`. Only the runtime-test wait knows a skipped job; only the KUnit
      wait keeps the unit's own output. */
  function ScanRecord(o: Outcome, r: Record, runtimeTests: bool): Outcome {
    var o := if r.source.OwnOutput? && !runtimeTests then o.(ktap := o.ktap + [r.message]) else o;
    match r.kind
    case Starting => if o.startedAt.None? then o.(startedAt := r.at) else o
    case ProcessExit(status) => o.(execStatus := status)
    case Started => o.(result := "done", endedAt := r.at)
    case FailedToStart => o.(result := "failed", endedAt := r.at)
    case Skipped => if runtimeTests then o.(result := "skipped", endedAt := r.at) else o
    case Stopped => if o.result == "" then o.(result := "stopped", endedAt := r.at) else o
    case Plain => o
  }

  function Scan(o: Outcome, rs: seq<Record>, runtimeTests: bool): Outcome
    decreases |rs|
  {
    if rs == [] then o else Scan(ScanRecord(o, rs[0], runtimeTests), rs[1..], runtimeTests)
  }

  lemma {:induction false} ScanConcat(o: Outcome, a: seq<Record>, b: seq<Record>, runtimeTests: bool)
    ensures Scan(o, a + b, runtimeTests) == Scan(Scan(o, a, runtimeTests), b, runtimeTests)
    decreases |a|
  {
    if a == [] {
      assert a + b == b;
    } else {
      assert (a + b)[0] == a[0] && (a + b)[1..] == a[1..] + b;
      ScanConcat(ScanRecord(o, a[0], runtimeTests), a[1..], b, runtimeTests);
    }
  }

  predicate IsOutcome(r: Record, runtimeTests: bool) {
    r.kind.Started? || r.kind.FailedToStart? || r.kind.Stopped? || (r.kind.Skipped? && runtimeTests)
  }

  /** A result was folded exactly when an outcome record was among those read. */
  lemma {:induction false} ResultMeansOutcome(o: Outcome, rs: seq<Record>, runtimeTests: bool)
    ensures Scan(o, rs, runtimeTests).result != "" <==>
              o.result != "" || exists i :: 0 <= i < |rs| && IsOutcome(rs[i], runtimeTests)
    decreases |rs|
  {
    if rs != [] {
      ResultMeansOutcome(ScanRecord(o, rs[0], runtimeTests), rs[1..], runtimeTests);
      assert forall i :: 0 < i < |rs| ==> rs[i] == rs[1..][i - 1];
    }
  }

  /** What the wait knows once it has read the unit's records up to `n`. */
  function OutcomeAt(journal: Journal, start: nat, n: nat, runtimeTests: bool): Outcome
    requires start <= n <= |journal|
  {
    Scan(NOTHING, Select(journal[start..n], UnitChannel), runtimeTests)
  }

  function KmsgAt(journal: Journal, start: nat, n: nat): seq<string>
    requires start <= n <= |journal|
  {
    Messages(Select(journal[start..n], KernelChannel))
  }

  // ----- schedules ----------------------------------------------------------------

  /** One poll: whether the guest is up, how long the journal is at each fetch, whether each
      fetch goes through, and whether the deadline has passed when the poll checks it. */
  datatype Poll = Poll(alive: bool, unitSees: nat, unitOk: bool, kernelSees: nat, kernelOk: bool, expired: bool)

  /** The journal only grows from one fetch to the next, `from` records on. */
  predicate Growing(journal: Journal, from: nat, polls: seq<Poll>) {
    && (forall i :: 0 <= i < |polls| ==> from <= polls[i].unitSees <= polls[i].kernelSees <= |journal|)
    && forall i, j :: 0 <= i < j < |polls| ==> polls[i].kernelSees <= polls[j].unitSees
  }

  function Sees(p: Poll, ch: Channel): nat {
    if ch.UnitChannel? then p.unitSees else p.kernelSees
  }

  /** The poll's fetch of the channel went through; the kernel's comes after the unit's. */
  predicate Reads(p: Poll, ch: Channel) {
    p.alive && p.unitOk && (ch.KernelChannel? ==> p.kernelOk)
  }

  /** How long the journal was at the channel's last successful fetch among the first `n`
      polls, `from` when there was none. */
  function LastRead(polls: seq<Poll>, n: nat, from: nat, ch: Channel): nat
    requires n <= |polls|
  {
    if n == 0 then from
    else if Reads(polls[n - 1], ch) then Sees(polls[n - 1], ch)
    else LastRead(polls, n - 1, from, ch)
  }

  lemma {:induction false} LastReadIs(polls: seq<Poll>, n: nat, i: nat, from: nat, ch: Channel)
    requires i < n <= |polls| && Reads(polls[i], ch) && forall j :: i < j < n ==> !Reads(polls[j], ch)
    ensures LastRead(polls, n, from, ch) == Sees(polls[i], ch)
  {
    if i < n - 1 {
      LastReadIs(polls, n - 1, i, from, ch);
    }
  }

  lemma {:induction false} NothingRead(polls: seq<Poll>, n: nat, from: nat, ch: Channel)
    requires n <= |polls| && forall j :: 0 <= j < n ==> !Reads(polls[j], ch)
    ensures LastRead(polls, n, from, ch) == from
  {
    if n > 0 {
      NothingRead(polls, n - 1, from, ch);
    }
  }

  /** Why a wait goes no further. */
  datatype End = StillWaiting | GuestDown | Concluded | TimedOut

  predicate Known(journal: Journal, start: nat, n: nat, runtimeTests: bool) {
    start <= n <= |journal| && OutcomeAt(journal, start, n, runtimeTests).result != ""
  }

  /** How poll `i` leaves a wait that had read the unit up to `from` when it began: a guest
      that is down comes first, then an outcome, provided all of this poll's fetches went
      through, then the deadline. */
  function EndAt(journal: Journal, start: nat, from: nat, polls: seq<Poll>, i: nat, runtimeTests: bool): End
    requires i < |polls|
  {
    EndOfPoll(polls[i], Known(journal, start, LastRead(polls, i + 1, from, UnitChannel), runtimeTests), runtimeTests)
  }

  function EndOfPoll(p: Poll, known: bool, runtimeTests: bool): End {
    if !p.alive then GuestDown
    else if Reads(p, if runtimeTests then KernelChannel else UnitChannel) && known then Concluded
    else if p.expired then TimedOut
    else StillWaiting
  }

  /** The wait stops at poll `stop` and no earlier, or has run out of polls. */
  predicate StopsAt(journal: Journal, start: nat, from: nat, polls: seq<Poll>, stop: nat, runtimeTests: bool) {
    && stop <= |polls|
    && (forall i :: 0 <= i < stop ==> EndAt(journal, start, from, polls, i, runtimeTests).StillWaiting?)
    && (stop < |polls| ==> !EndAt(journal, start, from, polls, stop, runtimeTests).StillWaiting?)
  }

  function EndOf(journal: Journal, start: nat, from: nat, polls: seq<Poll>, stop: nat, runtimeTests: bool): End {
    if stop < |polls| then EndAt(journal, start, from, polls, stop, runtimeTests) else StillWaiting
  }

  /** How far the channel is read when the wait is over, the last fetch after a timeout
      included. */
  function ReadInTheEnd(polls: seq<Poll>, stop: nat, from: nat, end: End, last: Poll, ch: Channel): nat
    requires stop <= |polls|
  {
    if end.TimedOut? && last.unitOk && (ch.KernelChannel? ==> last.kernelOk) then Sees(last, ch)
    else LastRead(polls, if stop < |polls| then stop + 1 else stop, from, ch)
  }

  /** There is one such poll, so what these say of a wait is a function of its schedule. */
  lemma StopIsUnique(journal: Journal, start: nat, from: nat, polls: seq<Poll>, a: nat, b: nat, runtimeTests: bool)
    requires StopsAt(journal, start, from, polls, a, runtimeTests) && StopsAt(journal, start, from, polls, b, runtimeTests)
    ensures a == b
  {
  }

  /** The runtime-test wait: its two cursors and what it has collected. The ghost fields say
      how long the journal was at each channel's last successful fetch. */
  class RuntimeWait {
    const journal: Journal
    const start: nat
    var outcome: Outcome
    var kmsg: seq<string>
    var runCursor: nat
    var kmsgCursor: nat
    var crashed: bool
    var timedOut: bool
    ghost var unitSeen: nat
    ghost var kernelSeen: nat

    ghost predicate Valid()
      reads this
    {
      && start <= runCursor && start <= kmsgCursor
      && start <= unitSeen <= |journal| && start <= kernelSeen <= |journal|
      && CaughtUp(journal, UnitChannel, runCursor, unitSeen)
      && CaughtUp(journal, KernelChannel, kmsgCursor, kernelSeen)
      && outcome == OutcomeAt(journal, start, unitSeen, true)
      && kmsg == KmsgAt(journal, start, kernelSeen)
    }

    constructor (journal: Journal, cursor: nat)
      requires cursor <= |journal|
      ensures Valid() && this.journal == journal && start == cursor == unitSeen == kernelSeen
      ensures !crashed && !timedOut
    {
      this.journal, start := journal, cursor;
      outcome, kmsg := NOTHING, [];
      runCursor, kmsgCursor, unitSeen, kernelSeen := cursor, cursor, cursor, cursor;
      crashed, timedOut := false, false;
    }

    method ScanRecords(records: seq<Record>)
      modifies this`outcome
      ensures outcome == Scan(old(outcome), records, true)
    {
      for i := 0 to |records|
        invariant Scan(outcome, records[i..], true) == Scan(old(outcome), records, true)
      {
        assert records[i..][0] == records[i] && records[i..][1..] == records[i + 1..];
        outcome := ScanRecord(outcome, records[i], true);
      }
    }

    /** `fetch`: the unit's records, then the kernel's. An error in the second leaves the
        first done, cursor and outcome included. */
    method Fetch(p: Poll) returns (ok: bool)
      requires Valid() && unitSeen <= p.unitSees <= p.kernelSees <= |journal| && kernelSeen <= p.kernelSees
      modifies this`outcome, this`kmsg, this`runCursor, this`kmsgCursor, this`unitSeen, this`kernelSeen
      ensures Valid() && ok == (p.unitOk && p.kernelOk)
      ensures unitSeen == if p.unitOk then p.unitSees else old(unitSeen)
      ensures kernelSeen == if ok then p.kernelSees else old(kernelSeen)
    {
      if !p.unitOk {
        return false;
      }
      FetchIsExact(journal, UnitChannel, start, runCursor, unitSeen, p.unitSees);
      ScanConcat(NOTHING, Select(journal[start..unitSeen], UnitChannel),
                 Fetched(journal, UnitChannel, runCursor, p.unitSees).1, true);
      var (next, records) := Fetched(journal, UnitChannel, runCursor, p.unitSees);
      runCursor, unitSeen := next, p.unitSees;
      ScanRecords(records);
      if !p.kernelOk {
        return false;
      }
      FetchIsExact(journal, KernelChannel, start, kmsgCursor, kernelSeen, p.kernelSees);
      var (knext, krecords) := Fetched(journal, KernelChannel, kmsgCursor, p.kernelSees);
      MessagesConcat(Select(journal[start..kernelSeen], KernelChannel), krecords);
      kmsgCursor, kernelSeen := knext, p.kernelSees;
      kmsg := kmsg + Messages(krecords);
      return true;
    }

    /** One turn of the loop. */
    method PollOnce(p: Poll) returns (end: End)
      requires Valid() && !crashed && !timedOut
      requires unitSeen <= p.unitSees <= p.kernelSees <= |journal| && kernelSeen <= p.kernelSees
      modifies this
      ensures Valid() && unitSeen == if Reads(p, UnitChannel) then p.unitSees else old(unitSeen)
      ensures kernelSeen == if Reads(p, KernelChannel) then p.kernelSees else old(kernelSeen)
      ensures end == EndOfPoll(p, Known(journal, start, unitSeen, true), true)
      ensures end.Concluded? ==> outcome.result != "" && unitSeen <= kernelSeen
      ensures crashed == end.GuestDown? && timedOut == end.TimedOut?
    {
      if !p.alive {
        crashed := true;
        return GuestDown;
      }
      var ok := Fetch(p);
      if ok && outcome.result != "" {
        return Concluded;
      }
      if p.expired {
        timedOut := true;
        return TimedOut;
      }
      return StillWaiting;
    }

    /** The poll loop over a schedule, and the last fetch after a timeout. Where it stops and
        why, and how far each channel is read then, are those of the schedule; outcome and
        kmsg are exactly what the journal holds up to there. */
    method Wait(polls: seq<Poll>, last: Poll) returns (end: End, ghost stop: nat)
      requires Valid() && !crashed && !timedOut
      requires Growing(journal, if unitSeen > kernelSeen then unitSeen else kernelSeen, polls + [last])
      modifies this
      ensures Valid() && StopsAt(journal, start, old(unitSeen), polls, stop, true)
      ensures end == EndOf(journal, start, old(unitSeen), polls, stop, true)
      ensures crashed == end.GuestDown? && timedOut == end.TimedOut?
      ensures unitSeen == ReadInTheEnd(polls, stop, old(unitSeen), end, last, UnitChannel)
      ensures kernelSeen == ReadInTheEnd(polls, stop, old(kernelSeen), end, last, KernelChannel)
      ensures end.Concluded? ==> outcome.result != "" && unitSeen <= kernelSeen
      ensures start <= unitSeen <= |journal| && outcome == OutcomeAt(journal, start, unitSeen, true)
      ensures start <= kernelSeen <= |journal| && kmsg == KmsgAt(journal, start, kernelSeen)
    {
      hide OutcomeAt, KmsgAt, CaughtUp, Known, EndOfPoll, Matches;
      ghost var all, u, v := polls + [last], unitSeen, kernelSeen;
      var i := 0;
      end, stop := StillWaiting, 0;
      while i < |polls| && end.StillWaiting?
        invariant 0 <= i <= |polls| && Valid()
        invariant unitSeen == LastRead(polls, i, u, UnitChannel)
        invariant kernelSeen == LastRead(polls, i, v, KernelChannel)
        invariant forall k :: i <= k < |all| ==> unitSeen <= all[k].unitSees && kernelSeen <= all[k].unitSees
        invariant i == 0 ==> end.StillWaiting?
        invariant i > 0 ==> end == EndAt(journal, start, u, polls, i - 1, true)
        invariant forall k :: 0 <= k < i - 1 ==> EndAt(journal, start, u, polls, k, true).StillWaiting?
        invariant crashed == end.GuestDown? && timedOut == end.TimedOut?
        invariant end.Concluded? ==> outcome.result != "" && unitSeen <= kernelSeen
      {
        assert all[i] == polls[i];
        end := PollOnce(polls[i]);
        i := i + 1;
      }
      stop := if end.StillWaiting? then i else i - 1;
      if timedOut {
        assert all[|polls|] == last;
        var _ := Fetch(last);
      }
    }
  }

  /** A wait that ended by itself has every kernel record that precedes the outcome. */
  lemma ConcludedCoversTheRun(journal: Journal, start: nat, unitSeen: nat, kernelSeen: nat) returns (at: nat)
    requires start <= unitSeen <= kernelSeen <= |journal|
    requires OutcomeAt(journal, start, unitSeen, true).result != ""
    ensures start <= at < unitSeen && IsOutcome(journal[at], true)
    ensures KmsgAt(journal, start, at) <= KmsgAt(journal, start, kernelSeen)
  {
    at := KmsgCoversTheRun(journal, start, unitSeen, kernelSeen, true);
  }

  /** The KUnit wait: one cursor, and the unit's own output kept as the KTAP. */
  class KunitWait {
    const journal: Journal
    const start: nat
    var outcome: Outcome
    var runCursor: nat
    var crashed: bool
    var timedOut: bool
    ghost var unitSeen: nat

    ghost predicate Valid()
      reads this
    {
      && start <= runCursor && start <= unitSeen <= |journal|
      && CaughtUp(journal, UnitChannel, runCursor, unitSeen)
      && outcome == OutcomeAt(journal, start, unitSeen, false)
    }

    constructor (journal: Journal, cursor: nat)
      requires cursor <= |journal|
      ensures Valid() && this.journal == journal && start == cursor == unitSeen && !crashed && !timedOut
    {
      this.journal, start := journal, cursor;
      outcome, runCursor, unitSeen := NOTHING, cursor, cursor;
      crashed, timedOut := false, false;
    }

    method Fetch(p: Poll) returns (ok: bool)
      requires Valid() && unitSeen <= p.unitSees <= |journal|
      modifies this`outcome, this`runCursor, this`unitSeen
      ensures Valid() && ok == p.unitOk
      ensures unitSeen == if ok then p.unitSees else old(unitSeen)
    {
      if !p.unitOk {
        return false;
      }
      FetchIsExact(journal, UnitChannel, start, runCursor, unitSeen, p.unitSees);
      var (next, records) := Fetched(journal, UnitChannel, runCursor, p.unitSees);
      ScanConcat(NOTHING, Select(journal[start..unitSeen], UnitChannel), records, false);
      runCursor, unitSeen := next, p.unitSees;
      ghost var before := outcome;
      for i := 0 to |records|
        invariant runCursor == next && unitSeen == p.unitSees
        invariant Scan(outcome, records[i..], false) == Scan(before, records, false)
      {
        assert records[i..][0] == records[i] && records[i..][1..] == records[i + 1..];
        outcome := ScanRecord(outcome, records[i], false);
      }
      return true;
    }

    /** One turn of the loop. */
    method PollOnce(p: Poll) returns (end: End)
      requires Valid() && !crashed && !timedOut
      requires unitSeen <= p.unitSees <= p.kernelSees <= |journal|
      modifies this
      ensures Valid() && unitSeen == if Reads(p, UnitChannel) then p.unitSees else old(unitSeen)
      ensures end == EndOfPoll(p, Known(journal, start, unitSeen, false), false)
      ensures crashed == end.GuestDown? && timedOut == end.TimedOut?
    {
      if !p.alive {
        crashed := true;
        return GuestDown;
      }
      var ok := Fetch(p);
      if ok && outcome.result != "" {
        return Concluded;
      }
      if p.expired {
        timedOut := true;
        return TimedOut;
      }
      return StillWaiting;
    }

    /** The same, with the unit's channel alone. */
    method Wait(polls: seq<Poll>, last: Poll) returns (end: End, ghost stop: nat)
      requires Valid() && !crashed && !timedOut
      requires Growing(journal, unitSeen, polls + [last])
      modifies this
      ensures Valid() && StopsAt(journal, start, old(unitSeen), polls, stop, false)
      ensures end == EndOf(journal, start, old(unitSeen), polls, stop, false)
      ensures crashed == end.GuestDown? && timedOut == end.TimedOut?
      ensures unitSeen == ReadInTheEnd(polls, stop, old(unitSeen), end, last, UnitChannel)
      ensures end.Concluded? ==> outcome.result != ""
      ensures start <= unitSeen <= |journal| && outcome == OutcomeAt(journal, start, unitSeen, false)
    {
      ghost var all, u := polls + [last], unitSeen;
      var i := 0;
      end, stop := StillWaiting, 0;
      while i < |polls| && end.StillWaiting?
        invariant 0 <= i <= |polls| && Valid()
        invariant unitSeen == LastRead(polls, i, u, UnitChannel)
        invariant forall k :: i <= k < |all| ==> unitSeen <= all[k].unitSees
        invariant i == 0 ==> end.StillWaiting?
        invariant i > 0 ==> end == EndAt(journal, start, u, polls, i - 1, false)
        invariant forall k :: 0 <= k < i - 1 ==> EndAt(journal, start, u, polls, k, false).StillWaiting?
        invariant crashed == end.GuestDown? && timedOut == end.TimedOut?
      {
        assert all[i] == polls[i];
        end := PollOnce(polls[i]);
        i := i + 1;
      }
      stop := if end.StillWaiting? then i else i - 1;
      if timedOut {
        assert all[|polls|] == last;
        var _ := Fetch(last);
      }
    }
  }

  // ----- what a finished wait is worth --------------------------------------------

  lemma {:induction false} SelectMembers(js: Journal, ch: Channel)
    ensures forall r :: r in Select(js, ch) <==> r in js && Matches(ch, r)
  {
    if js != [] {
      SelectMembers(js[1..], ch);
      assert forall r :: r in js <==> r == js[0] || r in js[1..];
    }
  }

  /** A known result comes from an outcome record already read. */
  lemma OutcomeWasRead(journal: Journal, start: nat, seen: nat, runtimeTests: bool) returns (at: nat)
    requires start <= seen <= |journal|
    requires OutcomeAt(journal, start, seen, runtimeTests).result != ""
    ensures start <= at < seen && Matches(UnitChannel, journal[at]) && IsOutcome(journal[at], runtimeTests)
  {
    var part := journal[start..seen];
    var rs := Select(part, UnitChannel);
    ResultMeansOutcome(NOTHING, rs, runtimeTests);
    var i :| 0 <= i < |rs| && IsOutcome(rs[i], runtimeTests);
    SelectMembers(part, UnitChannel);
    assert rs[i] in rs;
    var k :| 0 <= k < |part| && part[k] == rs[i];
    at := start + k;
  }

  /** The kernel fetch of the poll that ended the wait came no earlier than its unit fetch,
      so the collected lines cover every kernel record that precedes the outcome record. */
  lemma KmsgCoversTheRun(journal: Journal, start: nat, unitSeen: nat, kernelSeen: nat, runtimeTests: bool)
    returns (at: nat)
    requires start <= unitSeen <= kernelSeen <= |journal|
    requires OutcomeAt(journal, start, unitSeen, runtimeTests).result != ""
    ensures start <= at < unitSeen
    ensures Matches(UnitChannel, journal[at]) && IsOutcome(journal[at], runtimeTests)
    ensures KmsgAt(journal, start, at) <= KmsgAt(journal, start, kernelSeen)
  {
    at := OutcomeWasRead(journal, start, unitSeen, runtimeTests);
    SelectSplit(journal, start, at, kernelSeen, KernelChannel);
    MessagesConcat(Select(journal[start..at], KernelChannel), Select(journal[at..kernelSeen], KernelChannel));
  }

  /** The job-outcome record ends the unit's stream. */
  predicate OutcomeEnds(journal: Journal, start: nat, at: nat, runtimeTests: bool) {
    && start <= at < |journal|
    && (forall k :: start <= k < at && Matches(UnitChannel, journal[k]) ==> !IsOutcome(journal[k], runtimeTests))
    && (forall k :: at < k < |journal| ==> !Matches(UnitChannel, journal[k]))
  }

  lemma {:induction false} NothingSelected(js: Journal, ch: Channel)
    requires forall k :: 0 <= k < |js| ==> !Matches(ch, js[k])
    ensures Select(js, ch) == []
  {
    if js != [] {
      NothingSelected(js[1..], ch);
    }
  }

  /** Then the outcome and the KTAP a wait ends with are those of the whole stream, however
      its polls split it. */
  lemma SplitNeverMatters(journal: Journal, start: nat, at: nat, unitSeen: nat, runtimeTests: bool)
    requires OutcomeEnds(journal, start, at, runtimeTests) && start <= unitSeen <= |journal|
    requires OutcomeAt(journal, start, unitSeen, runtimeTests).result != ""
    ensures OutcomeAt(journal, start, unitSeen, runtimeTests) == OutcomeAt(journal, start, |journal|, runtimeTests)
  {
    var known := OutcomeWasRead(journal, start, unitSeen, runtimeTests);
    assert at < unitSeen;
    var rest := journal[unitSeen..|journal|];
    assert forall k :: 0 <= k < |rest| ==> rest[k] == journal[unitSeen + k];
    NothingSelected(rest, UnitChannel);
    SelectSplit(journal, start, unitSeen, |journal|, UnitChannel);
    assert Select(journal[start..unitSeen], UnitChannel) + [] == Select(journal[start..unitSeen], UnitChannel);
  }
}
