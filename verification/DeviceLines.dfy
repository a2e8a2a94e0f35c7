/** What the injector writes into a section, line by line, and what it takes a drive's sector
    size for. */
module DeviceLines {
  import opened Wrappers
  import opened Seqs
  import opened Devices

  // ----- the sector size ----------------------------------------------------------

  predicate Reports(d: Drive, n: nat) {
    d.logSec == Some(n)
  }

  /** The largest sector size any drive reports; 512 bytes when none reports one. */
  lemma {:induction false} DeviceSectorExactly(drives: seq<Drive>)
    ensures forall i, n: nat :: 0 <= i < |drives| && Reports(drives[i], n) ==> MaxSector(drives).Some? && n <= DeviceSector(drives)
    ensures MaxSector(drives).Some? ==> exists i :: 0 <= i < |drives| && Reports(drives[i], DeviceSector(drives))
    ensures (forall i, n: nat :: 0 <= i < |drives| ==> !Reports(drives[i], n)) ==> DeviceSector(drives) == 512
  {
    if drives != [] {
      var rest := drives[1..];
      DeviceSectorExactly(rest);
      assert forall i :: 0 < i < |drives| ==> drives[i] == rest[i - 1];
      if MaxSector(rest).Some? {
        var i :| 0 <= i < |rest| && Reports(rest[i], DeviceSector(rest));
        assert Reports(drives[i + 1], DeviceSector(rest));
      }
      if drives[0].logSec.Some? {
        assert Reports(drives[0], drives[0].logSec.value);
      }
    }
  }

  // ----- the lines of the section -------------------------------------------------

  /** Some line of the section assigns the key, or has it in its text. */
  predicate Named(block: Block, key: Key) {
    exists i :: 0 <= i < |block| && NamedIn(block[i], key)
  }

  predicate NamedIn(line: Line, key: Key) {
    (line.Assign? && line.key == key) || (line.Remark? && key in line.mentions)
  }

  lemma MentionsExactly(block: Block, key: Key)
    ensures Mentions(block, key) <==> Named(block, key)
  {
    assert forall i :: 0 <= i < |block| ==>
      (NamedIn(block[i], key) <==> match block[i] case Assign(k, _) => k == key case Remark(keys) => key in keys);
  }

  function If(b: bool, key: Key): seq<Key> {
    if b then [key] else []
  }

  /** The external variables a section declares empty, in the order they are served. */
  lemma {:induction false} ExternalsAre(block: Block)
    ensures Externals(block) ==
              If(Assign(TestRtdev, Empty) in block, TestRtdev) + (If(Assign(ScratchRtdev, Empty) in block, ScratchRtdev)
              + (If(Assign(TestLogdev, Empty) in block, TestLogdev) + If(Assign(ScratchLogdev, Empty) in block, ScratchLogdev)))
  {
    EmptyAmongFour(block, TestRtdev, ScratchRtdev, TestLogdev, ScratchLogdev);
  }

  lemma {:induction false} EmptyAmongFour(block: Block, a: Key, b: Key, c: Key, d: Key)
    ensures EmptyAmong(block, [a, b, c, d]) ==
              If(Assign(a, Empty) in block, a) + (If(Assign(b, Empty) in block, b)
              + (If(Assign(c, Empty) in block, c) + If(Assign(d, Empty) in block, d)))
  {
    assert EmptyAmong(block, []) == [];
    hide If, EmptyAmong;
    assert [a, b, c, d] == [a] + [b, c, d] && [b, c, d] == [b] + [c, d] && [c, d] == [c] + [d] && [d] == [d] + [];
    EmptyAmongFirst(block, a, [b, c, d]);
    EmptyAmongFirst(block, b, [c, d]);
    EmptyAmongFirst(block, c, [d]);
    EmptyAmongFirst(block, d, []);
    assert If(Assign(d, Empty) in block, d) + [] == If(Assign(d, Empty) in block, d);
  }

  lemma {:induction false} EmptyAmongFirst(block: Block, key: Key, rest: seq<Key>)
    ensures EmptyAmong(block, [key] + rest) == If(Assign(key, Empty) in block, key) + EmptyAmong(block, rest)
  {
    assert ([key] + rest)[1..] == rest;
  }

  /** The first empty declaration of a key. */
  predicate FirstEmpty(block: Block, key: Key, i: nat) {
    i < |block| && block[i] == Assign(key, Empty) && forall j :: 0 <= j < i ==> block[j] != Assign(key, Empty)
  }

  lemma {:induction false} FillsAt(block: Block, key: Key, dev: Device, i: nat)
    requires i < |block|
    ensures FillFirst(block, key, dev)[i] == if FirstEmpty(block, key, i) then Assign(key, Devices([dev])) else block[i]
  {
    if block[0] != Assign(key, Empty) && i > 0 {
      FillsAt(block[1..], key, dev, i - 1);
      assert forall j :: 0 < j < |block| ==> block[j] == block[1..][j - 1];
      assert FirstEmpty(block, key, i) <==> FirstEmpty(block[1..], key, i - 1);
    }
  }

  lemma OtherFirstEmpty(block: Block, key: Key, dev: Device, other: Key, i: nat)
    requires other != key
    ensures FirstEmpty(FillFirst(block, key, dev), other, i) <==> FirstEmpty(block, other, i)
  {
    forall j: nat | j < |block|
      ensures FillFirst(block, key, dev)[j] == Assign(other, Empty) <==> block[j] == Assign(other, Empty)
    {
      FillsAt(block, key, dev, j);
    }
  }

  /** What filling these keys from these devices makes of a line. */
  ghost predicate FilledLine(block: Block, keys: seq<Key>, devs: seq<Device>, i: nat, line: Line)
    requires i < |block| && |keys| <= |devs|
  {
    && (forall j :: 0 <= j < |keys| && FirstEmpty(block, keys[j], i) ==> line == Assign(keys[j], Devices([devs[j]])))
    && ((forall j :: 0 <= j < |keys| ==> !FirstEmpty(block, keys[j], i)) ==> line == block[i])
  }

  lemma FilledNext(block: Block, keys: seq<Key>, devs: seq<Device>, i: nat, line: Line)
    requires i < |block| && 0 < |keys| <= |devs| && Distinct(keys)
    requires FilledLine(FillFirst(block, keys[0], devs[0]), keys[1..], devs[1..], i, line)
    ensures FilledLine(block, keys, devs, i, line)
  {
    var filled, rest := FillFirst(block, keys[0], devs[0]), keys[1..];
    FillsAt(block, keys[0], devs[0], i);
    forall j | 0 < j < |keys|
      ensures keys[j] == rest[j - 1] && devs[j] == devs[1..][j - 1]
      ensures FirstEmpty(filled, keys[j], i) <==> FirstEmpty(block, keys[j], i)
    {
      OtherFirstEmpty(block, keys[0], devs[0], keys[j], i);
    }
  }

  lemma {:induction false} FillsAllAt(block: Block, keys: seq<Key>, devs: seq<Device>, i: nat)
    requires i < |block| && |keys| <= |devs| && Distinct(keys)
    ensures |FillAll(block, keys, devs)| == |block| && FilledLine(block, keys, devs, i, FillAll(block, keys, devs)[i])
    decreases |keys|
  {
    if keys != [] {
      var filled := FillFirst(block, keys[0], devs[0]);
      FillsAllAt(filled, keys[1..], devs[1..], i);
      FilledNext(block, keys, devs, i, FillAll(block, keys, devs)[i]);
    }
  }

  // ----- the lines added ----------------------------------------------------------

  /** The base line a section without external devices gets for scratch, or one with them. */
  function Scratch(external: bool, rest: seq<Device>): Line
    requires |rest| >= 2
  {
    if external || |rest| == 2 then Assign(ScratchDev, Devices([rest[1]])) else Assign(ScratchPool, Devices(rest[1..]))
  }

  /** What TEST and SCRATCH are bound from: all devices, or all but the last when that one is to
      hold the replay log. */
  function Shared(block: Block, devs: seq<Device>, logwrites: bool): seq<Device>
    requires devs != []
  {
    if logwrites && !Named(block, LogwritesDev) then devs[..|devs| - 1] else devs
  }

  /** A base line that the section calls for. */
  predicate CalledForLine(block: Block, devs: seq<Device>, logwrites: bool, l: Line)
    requires devs != [] && |Shared(block, devs, logwrites)| >= 2
  {
    var rest := Shared(block, devs, logwrites);
    || (l == Assign(TestDev, Devices([devs[0]])) && !Named(block, TestDev))
    || (l == Assign(TestDir, Literal("/media/test")) && !Named(block, TestDir))
    || (l == Assign(ScratchMnt, Literal("/media/scratch")) && !Named(block, ScratchMnt))
    || (l == Scratch(Externals(block) != [], rest) && !Named(block, ScratchDev) && !Named(block, ScratchPool))
    || (l == Assign(LogwritesDev, Devices([devs[|devs| - 1]])) && logwrites && !Named(block, LogwritesDev))
  }

  /** A base line, whatever the section mentions besides scratch and the log. */
  predicate IsBase(block: Block, devs: seq<Device>, rest: seq<Device>, carve: bool, l: Line)
    requires devs != [] && |rest| >= 2
  {
    || l == Assign(TestDev, Devices([rest[0]])) || l == Assign(TestDir, Literal("/media/test"))
    || l == Assign(ScratchMnt, Literal("/media/scratch"))
    || (l == Scratch(Externals(block) != [], rest) && !Mentions(block, ScratchDev) && !Mentions(block, ScratchPool))
    || (l == Assign(LogwritesDev, Devices([devs[|devs| - 1]])) && carve)
  }

  lemma {:induction false} BaseExactly(block: Block, devs: seq<Device>, logwrites: bool, l: Line)
    requires devs != [] && |Remaining(block, devs, logwrites)| >= 2
    ensures l in Base(block, devs, logwrites) <==>
              IsBase(block, devs, Remaining(block, devs, logwrites), logwrites && !Mentions(block, LogwritesDev), l)
  {
    hide Mentions, Externals;
    var rest, carve := Remaining(block, devs, logwrites), logwrites && !Mentions(block, LogwritesDev);
    assert carve <==> rest != devs by {
      assert carve ==> |rest| < |devs|;
    }
  }

  lemma {:induction false} AddedExactly(block: Block, devs: seq<Device>, logwrites: bool, l: Line)
    requires devs != [] && |Shared(block, devs, logwrites)| >= 2
    ensures Remaining(block, devs, logwrites) == Shared(block, devs, logwrites)
    ensures l in Added(block, Base(block, devs, logwrites)) <==> CalledForLine(block, devs, logwrites, l)
  {
    MentionsExactly(block, LogwritesDev);
    MentionsExactly(block, TestDev);
    MentionsExactly(block, TestDir);
    MentionsExactly(block, ScratchMnt);
    MentionsExactly(block, ScratchDev);
    MentionsExactly(block, ScratchPool);
    assert Remaining(block, devs, logwrites) == Shared(block, devs, logwrites);
    assert Shared(block, devs, logwrites)[0] == devs[0];
    BaseExactly(block, devs, logwrites, l);
    hide Mentions, Named, Externals, Base, Added;
  }

  /** The injector's error names the devices it lacks: with a replay log to place, one more. */
  lemma InjectFailsWith(block: Block, devs: seq<Device>, logwrites: bool)
    ensures var need, carve := 2 + |Externals(block)|, logwrites && !Named(block, LogwritesDev);
            && (Inject(block, devs, logwrites).Err? <==> |devs| < if carve then need + 1 else need)
            && (Inject(block, devs, logwrites).Err? ==>
                  Inject(block, devs, logwrites).error == TooFewDevices(if carve then need + 1 else need, |devs|))
  {
    MentionsExactly(block, LogwritesDev);
    hide Externals;
  }

  /** What the injector makes of any section, one that names devices of its own included: its
      lines stay, but for the first empty declaration of each external variable, which gets the
      device of its turn; after them come exactly the base lines the section calls for. */
  lemma InjectExactly(block: Block, devs: seq<Device>, logwrites: bool)
    requires Inject(block, devs, logwrites).Ok?
    ensures devs != [] && |Shared(block, devs, logwrites)| >= 2 + |Externals(block)|
    ensures var text := Inject(block, devs, logwrites).value;
            && |text| >= |block|
            && (forall i :: 0 <= i < |block| ==>
                  FilledLine(block, Externals(block), Shared(block, devs, logwrites)[2..], i, text[i]))
            && forall l :: l in text[|block|..] <==> CalledForLine(block, devs, logwrites, l)
  {
    MentionsExactly(block, LogwritesDev);
    ExternalsDeclared(block);
    var externals, rest := Externals(block), Shared(block, devs, logwrites);
    assert rest == Remaining(block, devs, logwrites);
    var filled, added := FillAll(block, externals, rest[2..]), Added(block, Base(block, devs, logwrites));
    assert Inject(block, devs, logwrites).value == filled + added;
    hide Externals, Named, FilledLine, CalledForLine, FillAll, Added, Base, Inject;
    forall i: nat | i < |block|
      ensures |filled| == |block| && FilledLine(block, externals, rest[2..], i, filled[i])
    {
      FillsAllAt(block, externals, rest[2..], i);
    }
    FillLength(block, externals, rest[2..]);
    assert (filled + added)[|block|..] == added;
    forall l
      ensures l in added <==> CalledForLine(block, devs, logwrites, l)
    {
      AddedExactly(block, devs, logwrites, l);
    }
  }

  lemma {:induction false} FillLength(block: Block, keys: seq<Key>, devs: seq<Device>)
    requires |keys| <= |devs|
    ensures |FillAll(block, keys, devs)| == |block|
    decreases |keys|
  {
    if keys != [] {
      FillLength(FillFirst(block, keys[0], devs[0]), keys[1..], devs[1..]);
    }
  }
}
