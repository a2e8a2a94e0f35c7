/** What a wait reports of a job, told from the journal records it has read. */
module JobOutcome {
  import opened Wrappers
  import opened Loss
  import opened Polling

  // ----- which records ------------------------------------------------------------

  function OwnMessage(): Record -> Option<string> {
    (r: Record) => if r.source.OwnOutput? then Some(r.message) else None
  }

  function KernelMessage(): Record -> Option<string> {
    (r: Record) => if r.source.Kernel? then Some(r.message) else None
  }

  function UnitRecord(): Record -> Option<Record> {
    (r: Record) => if r.source.OwnOutput? || r.source.Lifecycle? then Some(r) else None
  }

  /** The unit's channel is the unit's output and the records about it, in order. */
  lemma {:induction false} UnitRecordsAre(js: Journal)
    ensures Select(js, UnitChannel) == Collect(js, UnitRecord())
  {
    if js != [] {
      UnitRecordsAre(js[1..]);
    }
  }

  lemma {:induction false} KernelMessagesAre(js: Journal)
    ensures Messages(Select(js, KernelChannel)) == Collect(js, KernelMessage())
  {
    if js != [] {
      KernelMessagesAre(js[1..]);
      var rest := Select(js[1..], KernelChannel);
      assert ([js[0]] + rest)[1..] == rest;
    }
  }

  /** The kernel lines collected are the kernel's messages, in order. */
  lemma KmsgIs(journal: Journal, start: nat, n: nat)
    requires start <= n <= |journal|
    ensures KmsgAt(journal, start, n) == Collect(journal[start..n], KernelMessage())
  {
    KernelMessagesAre(journal[start..n]);
  }

  // ----- the result ---------------------------------------------------------------

  /** A record that settles the job, whatever was said before. */
  predicate Settles(r: Record, runtimeTests: bool) {
    r.kind.Started? || r.kind.FailedToStart? || (r.kind.Skipped? && runtimeTests)
  }

  ghost predicate LastSettles(rs: seq<Record>, runtimeTests: bool, k: nat) {
    k < |rs| && Settles(rs[k], runtimeTests) && forall i :: k < i < |rs| ==> !Settles(rs[i], runtimeTests)
  }

  ghost predicate NothingSettles(rs: seq<Record>, runtimeTests: bool) {
    forall i :: 0 <= i < |rs| ==> !Settles(rs[i], runtimeTests)
  }

  ghost predicate FirstStopped(rs: seq<Record>, k: nat) {
    k < |rs| && rs[k].kind.Stopped? && forall i :: 0 <= i < k ==> !rs[i].kind.Stopped?
  }

  function Read(rs: seq<Record>, runtimeTests: bool): Outcome {
    Scan(NOTHING, rs, runtimeTests)
  }

  lemma {:induction false} ReadLast(rs: seq<Record>, runtimeTests: bool)
    requires rs != []
    ensures Read(rs, runtimeTests) == ScanRecord(Read(rs[..|rs| - 1], runtimeTests), rs[|rs| - 1], runtimeTests)
  {
    var n := |rs| - 1;
    var o := Read(rs[..n], runtimeTests);
    assert rs == rs[..n] + [rs[n]] && [rs[n]][1..] == [];
    ScanConcat(NOTHING, rs[..n], [rs[n]], runtimeTests);
    assert Scan(o, [rs[n]], runtimeTests) == Scan(ScanRecord(o, rs[n], runtimeTests), [], runtimeTests);
  }

  /** The last record that settles the job decides, and gives the time. */
  lemma {:induction false} SettledBy(rs: seq<Record>, runtimeTests: bool, k: nat)
    requires LastSettles(rs, runtimeTests, k)
    ensures var o := Read(rs, runtimeTests);
            && (rs[k].kind.Started? ==> o.result == "done")
            && (rs[k].kind.FailedToStart? ==> o.result == "failed")
            && (rs[k].kind.Skipped? ==> o.result == "skipped")
            && o.endedAt == rs[k].at
    decreases |rs|
  {
    ReadLast(rs, runtimeTests);
    var n := |rs| - 1;
    if k < n {
      assert !Settles(rs[n], runtimeTests);
      SettledBy(rs[..n], runtimeTests, k);
    }
  }

  /** Without one, the first stop record does. */
  lemma {:induction false} StoppedBy(rs: seq<Record>, runtimeTests: bool, k: nat)
    requires NothingSettles(rs, runtimeTests) && FirstStopped(rs, k)
    ensures var o := Read(rs, runtimeTests); o.result == "stopped" && o.endedAt == rs[k].at
    decreases |rs|
  {
    ReadLast(rs, runtimeTests);
    var n := |rs| - 1;
    assert !Settles(rs[n], runtimeTests);
    if k < n {
      StoppedBy(rs[..n], runtimeTests, k);
    } else {
      Unsettled(rs[..n], runtimeTests);
    }
  }

  lemma {:induction false} Unsettled(rs: seq<Record>, runtimeTests: bool)
    requires NothingSettles(rs, runtimeTests) && forall i :: 0 <= i < |rs| ==> !rs[i].kind.Stopped?
    ensures var o := Read(rs, runtimeTests); o.result == "" && o.endedAt == None
  {
    if rs != [] {
      ReadLast(rs, runtimeTests);
      var n := |rs| - 1;
      assert !Settles(rs[n], runtimeTests) && !rs[n].kind.Stopped?;
      Unsettled(rs[..n], runtimeTests);
    }
  }

  lemma {:induction false} LastSettling(rs: seq<Record>, runtimeTests: bool) returns (k: nat)
    requires !NothingSettles(rs, runtimeTests)
    ensures LastSettles(rs, runtimeTests, k)
  {
    var n := |rs| - 1;
    if Settles(rs[n], runtimeTests) {
      k := n;
    } else {
      k := LastSettling(rs[..n], runtimeTests);
    }
  }

  lemma {:induction false} FirstStopping(rs: seq<Record>) returns (k: nat)
    requires exists i :: 0 <= i < |rs| && rs[i].kind.Stopped?
    ensures FirstStopped(rs, k)
  {
    if rs[0].kind.Stopped? {
      k := 0;
    } else {
      var rest := rs[1..];
      assert forall i :: 0 < i < |rs| ==> rs[i] == rest[i - 1];
      var j := FirstStopping(rest);
      k := j + 1;
      assert forall i :: 0 < i < k ==> rs[i] == rest[i - 1];
    }
  }

  /** The result a job is reported with, each exactly when its records say so. */
  ghost predicate Reported(rs: seq<Record>, runtimeTests: bool, result: string) {
    || (result == "done" && exists k: nat :: LastSettles(rs, runtimeTests, k) && rs[k].kind.Started?)
    || (result == "failed" && exists k: nat :: LastSettles(rs, runtimeTests, k) && rs[k].kind.FailedToStart?)
    || (result == "skipped" && exists k: nat :: LastSettles(rs, runtimeTests, k) && rs[k].kind.Skipped?)
    || (result == "stopped" && NothingSettles(rs, runtimeTests) && exists k: nat :: FirstStopped(rs, k))
    || (result == "" && NothingSettles(rs, runtimeTests) && forall k: nat :: !FirstStopped(rs, k))
  }

  lemma ResultExactly(rs: seq<Record>, runtimeTests: bool, result: string)
    ensures Read(rs, runtimeTests).result == result <==> Reported(rs, runtimeTests, result)
  {
    hide LastSettles, NothingSettles, FirstStopped, Read;
    if !NothingSettles(rs, runtimeTests) {
      var k := LastSettling(rs, runtimeTests);
      SettledBy(rs, runtimeTests, k);
      OneLast(rs, runtimeTests, k);
    } else {
      NoneLast(rs, runtimeTests);
      if exists i :: 0 <= i < |rs| && rs[i].kind.Stopped? {
        var k := FirstStopping(rs);
        StoppedBy(rs, runtimeTests, k);
      } else {
        Unsettled(rs, runtimeTests);
        NoneStopped(rs);
      }
    }
  }

  lemma OneLast(rs: seq<Record>, runtimeTests: bool, k: nat)
    requires LastSettles(rs, runtimeTests, k)
    ensures forall j: nat :: LastSettles(rs, runtimeTests, j) ==> j == k
    ensures rs[k].kind.Started? || rs[k].kind.FailedToStart? || rs[k].kind.Skipped?
  {
  }

  lemma NoneLast(rs: seq<Record>, runtimeTests: bool)
    requires NothingSettles(rs, runtimeTests)
    ensures forall j: nat :: !LastSettles(rs, runtimeTests, j)
  {
  }

  lemma NoneStopped(rs: seq<Record>)
    requires forall i :: 0 <= i < |rs| ==> !rs[i].kind.Stopped?
    ensures forall j: nat :: !FirstStopped(rs, j)
  {
  }

  // ----- the rest -----------------------------------------------------------------

  /** The start is the first start record that carries a time. */
  lemma {:induction false} StartedAtIs(rs: seq<Record>, runtimeTests: bool, k: nat)
    requires k <= |rs| && forall i :: 0 <= i < k ==> !(rs[i].kind.Starting? && rs[i].at.Some?)
    requires k < |rs| ==> rs[k].kind.Starting? && rs[k].at.Some?
    ensures Read(rs, runtimeTests).startedAt == if k < |rs| then rs[k].at else None
    decreases |rs|
  {
    if rs != [] {
      ReadLast(rs, runtimeTests);
      var n := |rs| - 1;
      StartedAtIs(rs[..n], runtimeTests, if k < n then k else n);
    }
  }

  /** The exit status is that of the last process exit. */
  lemma {:induction false} ExecStatusIs(rs: seq<Record>, runtimeTests: bool)
    ensures forall k :: 0 <= k < |rs| && rs[k].kind.ProcessExit? && (forall i :: k < i < |rs| ==> !rs[i].kind.ProcessExit?) ==>
              Read(rs, runtimeTests).execStatus == rs[k].kind.status
    ensures (forall i :: 0 <= i < |rs| ==> !rs[i].kind.ProcessExit?) ==> Read(rs, runtimeTests).execStatus == ""
  {
    if rs != [] {
      ReadLast(rs, runtimeTests);
      ExecStatusIs(rs[..|rs| - 1], runtimeTests);
    }
  }

  lemma KtapOneMore(o: Outcome, r: Record, runtimeTests: bool)
    ensures ScanRecord(o, r, runtimeTests).ktap == o.ktap + if runtimeTests then [] else Collect([r], OwnMessage())
  {
    assert [r][1..] == [];
    assert Collect([r], OwnMessage()) == if r.source.OwnOutput? then [r.message] else [];
  }

  /** The KTAP is the unit's own output in order; the runtime tests keep none. */
  lemma {:induction false} KtapIs(rs: seq<Record>, runtimeTests: bool)
    ensures Read(rs, runtimeTests).ktap == if runtimeTests then [] else Collect(rs, OwnMessage())
  {
    if rs != [] {
      var n := |rs| - 1;
      ReadLast(rs, runtimeTests);
      KtapIs(rs[..n], runtimeTests);
      assert rs == rs[..n] + [rs[n]];
      hide Collect, ScanRecord, Scan;
      KtapOneMore(Read(rs[..n], runtimeTests), rs[n], runtimeTests);
      CollectConcat(rs[..n], [rs[n]], OwnMessage());
    }
  }

  /** So what a wait knows of its job is told from the unit's records up to its last read. */
  lemma OutcomeIs(journal: Journal, start: nat, n: nat, runtimeTests: bool)
    requires start <= n <= |journal|
    ensures OutcomeAt(journal, start, n, runtimeTests) == Read(Collect(journal[start..n], UnitRecord()), runtimeTests)
  {
    UnitRecordsAre(journal[start..n]);
  }

  // ----- the end of a wait --------------------------------------------------------

  /** All of the poll's reads went through. */
  predicate AllRead(p: Poll, runtimeTests: bool) {
    p.alive && p.unitOk && (runtimeTests ==> p.kernelOk)
  }

  /** The unit's position is that of its last read that went through, and so is the kernel's,
      whose read comes after the unit's. */
  lemma PositionIs(polls: seq<Poll>, n: nat, from: nat, ch: Channel, i: nat)
    requires i < n <= |polls|
    requires polls[i].alive && polls[i].unitOk && (ch == KernelChannel ==> polls[i].kernelOk)
    requires forall j :: i < j < n ==> !(polls[j].alive && polls[j].unitOk && (ch == KernelChannel ==> polls[j].kernelOk))
    ensures LastRead(polls, n, from, ch) == if ch == KernelChannel then polls[i].kernelSees else polls[i].unitSees
  {
    LastReadIs(polls, n, i, from, ch);
  }

  /** Why poll `i` ends a wait, each exactly when it is so: the guest is down; or every read
      went through and a result is known; or else the deadline has passed. */
  lemma EndExactly(journal: Journal, start: nat, from: nat, polls: seq<Poll>, i: nat, runtimeTests: bool)
    requires i < |polls| && start <= LastRead(polls, i + 1, from, UnitChannel) <= |journal|
    ensures var p, end := polls[i], EndAt(journal, start, from, polls, i, runtimeTests);
            var known := OutcomeAt(journal, start, LastRead(polls, i + 1, from, UnitChannel), runtimeTests).result != "";
            && (end == GuestDown <==> !p.alive)
            && (end == Concluded <==> AllRead(p, runtimeTests) && known)
            && (end == TimedOut <==> p.alive && p.expired && !(AllRead(p, runtimeTests) && known))
            && (end == StillWaiting <==> p.alive && !p.expired && !(AllRead(p, runtimeTests) && known))
  {
    hide OutcomeAt, LastRead;
  }

  /** A wait ends at the first poll that ends it, for that poll's reason, or with its polls. */
  lemma WaitEndsExactly(journal: Journal, start: nat, from: nat, polls: seq<Poll>, stop: nat, runtimeTests: bool)
    requires stop <= |polls|
    ensures StopsAt(journal, start, from, polls, stop, runtimeTests) <==>
              && (forall i :: 0 <= i < stop ==> EndAt(journal, start, from, polls, i, runtimeTests) == StillWaiting)
              && (stop == |polls| || EndAt(journal, start, from, polls, stop, runtimeTests) != StillWaiting)
    ensures EndOf(journal, start, from, polls, stop, runtimeTests) ==
              if stop == |polls| then StillWaiting else EndAt(journal, start, from, polls, stop, runtimeTests)
  {
    hide EndAt;
  }

  /** A wait that timed out reads once more; any other has read up to the poll it ended with. */
  lemma LastFetchCounts(polls: seq<Poll>, stop: nat, from: nat, end: End, last: Poll, ch: Channel)
    requires stop <= |polls|
    ensures ReadInTheEnd(polls, stop, from, end, last, ch) ==
              if end == TimedOut && last.unitOk && (ch == UnitChannel || last.kernelOk)
              then (if ch == UnitChannel then last.unitSees else last.kernelSees)
              else if stop == |polls| then LastRead(polls, |polls|, from, ch)
              else LastRead(polls, stop + 1, from, ch)
  {
    hide LastRead;
  }
}
