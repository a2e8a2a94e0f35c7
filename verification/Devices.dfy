/** Which sections a guest's devices can run, and which device each role gets: the gating and
    arming loop of f/fstests/render_config.py over `inject_device_base` of
    f/fstests/common.py. */
module Devices {
  import opened Seqs
  import opened Wrappers

  /** A device node. */
  datatype Device = Node(path: string)

  /** The variables the injector looks for. */
  datatype Key =
    | TestDev | ScratchDev | ScratchPool | LogwritesDev
    | TestRtdev | ScratchRtdev | TestLogdev | ScratchLogdev
    | TestDir | ScratchMnt | OtherKey(name: string)

  datatype Value = Empty | Devices(devs: seq<Device>) | Literal(text: string)

  /** A line of a section. The injector searches the text for `KEY=`, so a comment or a
      longer variable name can mention a key without assigning it. */
  datatype Line = Assign(key: Key, value: Value) | Remark(mentions: set<Key>)

  type Block = seq<Line>

  predicate Mentions(block: Block, key: Key) {
    exists i :: 0 <= i < |block| && match block[i]
      case Assign(k, _) => k == key
      case Remark(keys) => key in keys
  }

  predicate DeclaredEmpty(block: Block, key: Key) {
    Assign(key, Empty) in block
  }

  const EXTERNAL_KEYS := [TestRtdev, ScratchRtdev, TestLogdev, ScratchLogdev]

  function EmptyAmong(block: Block, keys: seq<Key>): (r: seq<Key>)
    ensures |r| <= |keys|
    ensures forall k :: k in r <==> k in keys && DeclaredEmpty(block, k)
  {
    if keys == [] then []
    else (if DeclaredEmpty(block, keys[0]) then [keys[0]] else []) + EmptyAmong(block, keys[1..])
  }

  /** `section_external_devs`. */
  function Externals(block: Block): seq<Key> {
    EmptyAmong(block, EXTERNAL_KEYS)
  }

  /** Fill the first empty declaration of `key`. */
  function FillFirst(block: Block, key: Key, dev: Device): (r: Block)
    ensures |r| == |block|
  {
    if block == [] then []
    else if block[0] == Assign(key, Empty) then [Assign(key, Devices([dev]))] + block[1..]
    else [block[0]] + FillFirst(block[1..], key, dev)
  }

  function FillAll(block: Block, keys: seq<Key>, devs: seq<Device>): Block
    requires |keys| <= |devs|
    decreases |keys|
  {
    if keys == [] then block else FillAll(FillFirst(block, keys[0], devs[0]), keys[1..], devs[1..])
  }

  /** The base lines whose key the section does not mention. */
  function Added(block: Block, base: seq<Line>): (r: Block)
    requires forall l :: l in base ==> l.Assign?
    ensures forall l :: l in r <==> l in base && !Mentions(block, l.key)
  {
    if base == [] then []
    else (if Mentions(block, base[0].key) then [] else [base[0]]) + Added(block, base[1..])
  }

  datatype Error = TooFewDevices(need: nat, have: nat)

  function ScratchLines(block: Block, devs: seq<Device>, external: bool): (r: seq<Line>)
    requires |devs| >= 2
    ensures forall l :: l in r ==> l.Assign?
  {
    if Mentions(block, ScratchDev) || Mentions(block, ScratchPool) then []
    else if external || |devs| == 2 then [Assign(ScratchDev, Devices([devs[1]]))]
    else [Assign(ScratchPool, Devices(devs[1..]))]
  }

  /** What is left for TEST and SCRATCH once the replay log has its device. */
  function Remaining(block: Block, devs: seq<Device>, logwrites: bool): seq<Device>
    requires logwrites && !Mentions(block, LogwritesDev) ==> |devs| > 0
  {
    if logwrites && !Mentions(block, LogwritesDev) then devs[..|devs| - 1] else devs
  }

  function Base(block: Block, devs: seq<Device>, logwrites: bool): (r: seq<Line>)
    requires logwrites && !Mentions(block, LogwritesDev) ==> |devs| > 0
    requires |Remaining(block, devs, logwrites)| >= 2
    ensures forall l :: l in r ==> l.Assign?
  {
    var rest := Remaining(block, devs, logwrites);
    [Assign(TestDev, Devices([rest[0]])), Assign(TestDir, Literal("/media/test")), Assign(ScratchMnt, Literal("/media/scratch"))]
    + ScratchLines(block, rest, Externals(block) != [])
    + if rest != devs then [Assign(LogwritesDev, Devices([devs[|devs| - 1]]))] else []
  }

  /** `inject_device_base`. */
  function Inject(block: Block, devs: seq<Device>, logwrites: bool): Result<Block, Error> {
    var externals := Externals(block);
    var need := 2 + |externals|;
    if logwrites && !Mentions(block, LogwritesDev) && |devs| < need + 1 then Err(TooFewDevices(need + 1, |devs|))
    else
      var rest := Remaining(block, devs, logwrites);
      if |rest| < need then Err(TooFewDevices(need, |rest|))
      else Ok(FillAll(block, externals, rest[2..]) + Added(block, Base(block, devs, logwrites)))
  }

  // ----- gating -------------------------------------------------------------------

  const GUEST_PAGE_SIZE := 4096

  /** A section with what the gate reads out of its mkfs options. */
  datatype Section = Section(name: string, block: Block, blockSize: nat, sectorSize: Option<nat>, v4: bool)

  datatype Drive = Drive(name: Device, logSec: Option<nat>)

  datatype Skip = BelowSector | UnmountableV4 | TooFewExternal(need: nat) | TooFewLogwrites(need: nat)

  function Nodes(drives: seq<Drive>): (r: seq<Device>)
    ensures |r| == |drives| && forall i :: 0 <= i < |r| ==> r[i] == drives[i].name
  {
    seq(|drives|, i requires 0 <= i < |drives| => drives[i].name)
  }

  function MaxSector(drives: seq<Drive>): Option<nat> {
    if drives == [] then None else
    match (drives[0].logSec, MaxSector(drives[1..]))
    case (None, rest) => rest
    case (Some(n), None) => Some(n)
    case (Some(n), Some(m)) => Some(if n > m then n else m)
  }

  /** `device_sector`: the largest sector reported, 512 when none is. */
  function DeviceSector(drives: seq<Drive>): nat {
    match MaxSector(drives)
    case None => 512
    case Some(n) => n
  }

  /** A file system of these sizes can be made on the device, and mounted. */
  predicate Suits(s: Section, sector: nat) {
    && s.blockSize >= sector && (s.sectorSize.Some? ==> s.sectorSize.value >= sector)
    && (s.v4 ==> s.blockSize <= GUEST_PAGE_SIZE)
  }

  function Gate(s: Section, count: nat, sector: nat, logwrites: bool): Option<Skip> {
    var externals := |Externals(s.block)|;
    if s.blockSize < sector || (s.sectorSize.Some? && s.sectorSize.value < sector) then Some(BelowSector)
    else if s.v4 && s.blockSize > GUEST_PAGE_SIZE then Some(UnmountableV4)
    else if externals > 0 && count < 2 + externals then Some(TooFewExternal(2 + externals))
    else if logwrites && count < 2 + externals + 1 then Some(TooFewLogwrites(2 + externals + 1))
    else None
  }

  /** Why a section is turned away, each exactly when it is so: what the device or the kernel
      cannot do comes first, then what the guest has too few devices for. */
  lemma GateExactly(s: Section, count: nat, sector: nat, logwrites: bool)
    ensures var skip, externals := Gate(s, count, sector, logwrites), |Externals(s.block)|;
            var below := s.blockSize < sector || (s.sectorSize.Some? && s.sectorSize.value < sector);
            && (skip == Some(BelowSector) <==> below)
            && (skip == Some(UnmountableV4) <==> !below && s.v4 && s.blockSize > 4096)
            && (skip == Some(TooFewExternal(2 + externals)) <==> Suits(s, sector) && externals > 0 && count < 2 + externals)
            && (skip == Some(TooFewLogwrites(3 + externals)) <==>
                  Suits(s, sector) && !(externals > 0 && count < 2 + externals) && logwrites && count < 3 + externals)
            && (skip.None? <==> Suits(s, sector) && (externals > 0 ==> count >= 2 + externals) && (logwrites ==> count >= 3 + externals))
  {
    hide Externals;
  }

  /** A section that passes the gate meets everything the injector asks for. */
  lemma GatedNeverFails(s: Section, drives: seq<Drive>, logwrites: bool)
    requires |drives| >= 2 && Gate(s, |drives|, DeviceSector(drives), logwrites).None?
    ensures Inject(s.block, Nodes(drives), logwrites).Ok?
  {
  }

  /** The injector fails exactly when the devices run out. */
  lemma InjectFailsExactly(block: Block, devs: seq<Device>, logwrites: bool)
    requires |devs| >= 2
    ensures Inject(block, devs, logwrites).Err? <==>
              |devs| < 2 + |Externals(block)| + if logwrites && !Mentions(block, LogwritesDev) then 1 else 0
  {
  }

  /** Of the sections large enough for the device, the gate turns away one the injector could
      serve exactly when that section brings its own log device and the guest has just enough
      for the rest. */
  lemma GateTooStrictExactly(s: Section, drives: seq<Drive>, logwrites: bool)
    requires |drives| >= 2 && Suits(s, DeviceSector(drives))
    ensures Gate(s, |drives|, DeviceSector(drives), logwrites).Some? && Inject(s.block, Nodes(drives), logwrites).Ok?
       <==> logwrites && Mentions(s.block, LogwritesDev) && |drives| == 2 + |Externals(s.block)|
  {
    InjectFailsExactly(s.block, Nodes(drives), logwrites);
  }

  lemma {:induction false} NoneDeclaredEmpty(block: Block, keys: seq<Key>)
    requires forall k :: !DeclaredEmpty(block, k)
    ensures EmptyAmong(block, keys) == []
  {
    if keys != [] {
      NoneDeclaredEmpty(block, keys[1..]);
    }
  }

  /** Two devices, and a section that names its replay log itself. */
  lemma OwnLogDeviceTurnedAway(name: string, a: Drive, b: Drive, log: Value)
    requires log != Empty && DeviceSector([a, b]) <= 4096
    ensures var s := Section(name, [Assign(LogwritesDev, log)], 4096, None, false);
            && Gate(s, 2, DeviceSector([a, b]), true) == Some(TooFewLogwrites(3))
            && Inject(s.block, Nodes([a, b]), true).Ok?
  {
    var s := Section(name, [Assign(LogwritesDev, log)], 4096, None, false);
    assert s.block[0] == Assign(LogwritesDev, log) && Mentions(s.block, LogwritesDev);
    assert forall k :: !DeclaredEmpty(s.block, k);
    NoneDeclaredEmpty(s.block, EXTERNAL_KEYS);
    InjectFailsExactly(s.block, Nodes([a, b]), true);
  }

  datatype Armed = Armed(name: string, text: Block)

  /** The sections the gate lets through, in order. */
  function Passing(sections: seq<Section>, count: nat, sector: nat, logwrites: bool): seq<Section> {
    if sections == [] then []
    else (if Gate(sections[0], count, sector, logwrites).None? then [sections[0]] else [])
         + Passing(sections[1..], count, sector, logwrites)
  }

  lemma {:induction false} PassingAppend(sections: seq<Section>, s: Section, count: nat, sector: nat, logwrites: bool)
    ensures Passing(sections + [s], count, sector, logwrites)
         == Passing(sections, count, sector, logwrites)
            + if Gate(s, count, sector, logwrites).None? then [s] else []
  {
    if sections != [] {
      assert (sections + [s])[1..] == sections[1..] + [s];
      PassingAppend(sections[1..], s, count, sector, logwrites);
    }
  }

  function Reasons(s: Section, count: nat, sector: nat, logwrites: bool): seq<(string, Skip)> {
    var skip := Gate(s, count, sector, logwrites);
    if skip.Some? then [(s.name, skip.value)] else []
  }

  /** The sections it turns away, in order, each with its reason. */
  function TurnedAway(sections: seq<Section>, count: nat, sector: nat, logwrites: bool): seq<(string, Skip)> {
    if sections == [] then []
    else Reasons(sections[0], count, sector, logwrites) + TurnedAway(sections[1..], count, sector, logwrites)
  }

  lemma {:induction false} TurnedAwayAppend(sections: seq<Section>, s: Section, count: nat, sector: nat, logwrites: bool)
    ensures TurnedAway(sections + [s], count, sector, logwrites)
         == TurnedAway(sections, count, sector, logwrites) + Reasons(s, count, sector, logwrites)
  {
    if sections == [] {
      assert [s][1..] == [];
    } else {
      assert (sections + [s])[1..] == sections[1..] + [s];
      TurnedAwayAppend(sections[1..], s, count, sector, logwrites);
      Regroup(Reasons(sections[0], count, sector, logwrites), TurnedAway(sections[1..], count, sector, logwrites),
              Reasons(s, count, sector, logwrites));
    }
  }

  predicate ArmedOne(armed: Armed, s: Section, devs: seq<Device>, logwrites: bool) {
    armed.name == s.name && Ok(armed.text) == Inject(s.block, devs, logwrites)
  }

  predicate ArmedAs(armed: seq<Armed>, passing: seq<Section>, devs: seq<Device>, logwrites: bool) {
    |armed| == |passing| && forall i :: 0 <= i < |armed| ==> ArmedOne(armed[i], passing[i], devs, logwrites)
  }

  /** The arming loop: every section is armed or turned away with its reason, in order, and the
      injector's error never escapes. */
  method ArmSections(sections: seq<Section>, drives: seq<Drive>, logwrites: bool)
    returns (r: Result<(seq<Armed>, seq<(string, Skip)>), Error>)
    ensures |drives| < 2 ==> r == Err(TooFewDevices(2, |drives|))
    ensures |drives| >= 2 ==> r.Ok?
    ensures r.Ok? ==> ArmedAs(r.value.0, Passing(sections, |drives|, DeviceSector(drives), logwrites), Nodes(drives), logwrites)
    ensures r.Ok? ==> r.value.1 == TurnedAway(sections, |drives|, DeviceSector(drives), logwrites)
  {
    if |drives| < 2 {
      return Err(TooFewDevices(2, |drives|));
    }
    var sector := DeviceSector(drives);
    var armed: seq<Armed>, skipped: seq<(string, Skip)> := [], [];
    for i := 0 to |sections|
      invariant ArmedAs(armed, Passing(sections[..i], |drives|, sector, logwrites), Nodes(drives), logwrites)
      invariant skipped == TurnedAway(sections[..i], |drives|, sector, logwrites)
    {
      assert sections[..i + 1] == sections[..i] + [sections[i]];
      PassingAppend(sections[..i], sections[i], |drives|, sector, logwrites);
      TurnedAwayAppend(sections[..i], sections[i], |drives|, sector, logwrites);
      var more, reasons := ArmOrSkip(sections[i], drives, sector, logwrites);
      ArmedMore(armed, Passing(sections[..i], |drives|, sector, logwrites), more,
                if reasons == [] then [sections[i]] else [], Nodes(drives), logwrites);
      armed, skipped := armed + more, skipped + reasons;
    }
    assert sections[..|sections|] == sections;
    return Ok((armed, skipped));
  }

  method ArmOrSkip(s: Section, drives: seq<Drive>, sector: nat, logwrites: bool)
    returns (armed: seq<Armed>, skipped: seq<(string, Skip)>)
    requires |drives| >= 2 && sector == DeviceSector(drives)
    ensures skipped == Reasons(s, |drives|, sector, logwrites)
    ensures ArmedAs(armed, if Gate(s, |drives|, sector, logwrites).None? then [s] else [], Nodes(drives), logwrites)
  {
    var skip := Gate(s, |drives|, sector, logwrites);
    if skip.Some? {
      return [], [(s.name, skip.value)];
    }
    GatedNeverFails(s, drives, logwrites);
    return [Armed(s.name, Inject(s.block, Nodes(drives), logwrites).value)], [];
  }

  lemma ArmedMore(armed: seq<Armed>, passing: seq<Section>, more: seq<Armed>, next: seq<Section>,
                  devs: seq<Device>, logwrites: bool)
    requires ArmedAs(armed, passing, devs, logwrites) && ArmedAs(more, next, devs, logwrites)
    ensures ArmedAs(armed + more, passing + next, devs, logwrites)
  {
    hide ArmedOne;
    var a, p := armed + more, passing + next;
    forall i | 0 <= i < |a|
      ensures ArmedOne(a[i], p[i], devs, logwrites)
    {
      if i < |armed| {
        assert a[i] == armed[i] && p[i] == passing[i];
      } else {
        assert a[i] == more[i - |armed|] && p[i] == next[i - |armed|];
      }
    }
  }

  // ----- who gets which device ----------------------------------------------------

  /** A section that names no device: no role is mentioned, and each external role appears at
      most once, empty. */
  predicate Agnostic(block: Block) {
    && !Mentions(block, TestDev) && !Mentions(block, ScratchDev) && !Mentions(block, ScratchPool)
    && !Mentions(block, LogwritesDev)
    && (forall i :: 0 <= i < |block| && block[i].Assign? ==> !block[i].value.Devices?)
    && (forall i :: 0 <= i < |block| && block[i].Assign? && block[i].key in EXTERNAL_KEYS ==> block[i].value.Empty?)
    && forall i, j :: 0 <= i < j < |block| && block[i].Assign? && block[j].Assign? && block[i].key in EXTERNAL_KEYS ==>
         block[i].key != block[j].key
  }

  predicate Binds(text: Block, key: Key, dev: Device) {
    exists i :: 0 <= i < |text| && text[i].Assign? && text[i].key == key && text[i].value.Devices? && dev in text[i].value.devs
  }

  /** What is left once the replay log of a section that names none has its device. */
  function Rest(devs: seq<Device>, logwrites: bool): seq<Device>
    requires logwrites ==> devs != []
  {
    if logwrites then devs[..|devs| - 1] else devs
  }

  /** The device at position `i` goes to exactly this role. */
  function Role(externals: seq<Key>, count: nat, logwrites: bool, i: nat): Option<Key>
    requires i < count
  {
    var rest := if logwrites then count - 1 else count;
    if i >= rest then Some(LogwritesDev)
    else if i == 0 then Some(TestDev)
    else if externals == [] then Some(if rest == 2 then ScratchDev else ScratchPool)
    else if i == 1 then Some(ScratchDev)
    else if i - 2 < |externals| then Some(externals[i - 2])
    else None
  }

  function RoleOf(block: Block, count: nat, logwrites: bool, i: nat): Option<Key>
    requires i < count
  {
    Role(Externals(block), count, logwrites, i)
  }

  predicate Called(externals: seq<Key>, devs: seq<Device>, logwrites: bool, k: Key, d: Device) {
    exists i :: 0 <= i < |devs| && devs[i] == d && Role(externals, |devs|, logwrites, i) == Some(k)
  }

  predicate CalledFor(block: Block, devs: seq<Device>, logwrites: bool, k: Key, d: Device) {
    Called(Externals(block), devs, logwrites, k, d)
  }

  lemma {:induction false} EmptyAmongDistinct(block: Block, keys: seq<Key>)
    requires Distinct(keys)
    ensures Distinct(EmptyAmong(block, keys))
  {
    if keys != [] {
      EmptyAmongDistinct(block, keys[1..]);
      assert keys[0] !in keys[1..] && keys[0] !in EmptyAmong(block, keys[1..]);
    }
  }

  /** Filling binds the new device to its key and leaves every other binding alone. */
  lemma {:induction false} FillFirstBinds(block: Block, key: Key, dev: Device, k: Key, d: Device)
    requires Assign(key, Empty) in block
    ensures Binds(FillFirst(block, key, dev), k, d) <==> Binds(block, k, d) || (k == key && d == dev)
  {
    var filled := FillFirst(block, key, dev);
    if block[0] == Assign(key, Empty) {
      assert filled[0] == Assign(key, Devices([dev]));
      BindsCons(filled[0], block[1..], k, d);
      BindsCons(block[0], block[1..], k, d);
      assert filled == [filled[0]] + block[1..] && block == [block[0]] + block[1..];
    } else {
      assert Assign(key, Empty) in block[1..];
      FillFirstBinds(block[1..], key, dev, k, d);
      BindsCons(block[0], FillFirst(block[1..], key, dev), k, d);
      BindsCons(block[0], block[1..], k, d);
      assert block == [block[0]] + block[1..];
    }
  }

  lemma BindsCons(line: Line, rest: Block, k: Key, d: Device)
    ensures Binds([line] + rest, k, d) <==>
              (line.Assign? && line.key == k && line.value.Devices? && d in line.value.devs) || Binds(rest, k, d)
  {
    var all := [line] + rest;
    assert all[0] == line && forall i :: 0 <= i < |rest| ==> all[i + 1] == rest[i];
  }

  lemma BindsConcat(a: Block, b: Block, k: Key, d: Device)
    ensures Binds(a + b, k, d) <==> Binds(a, k, d) || Binds(b, k, d)
  {
    var all := a + b;
    assert forall i :: 0 <= i < |a| ==> all[i] == a[i];
    assert forall i :: 0 <= i < |b| ==> all[|a| + i] == b[i];
  }

  lemma {:induction false} FillFirstKeeps(block: Block, key: Key, dev: Device, other: Key)
    requires other != key && Assign(other, Empty) in block
    ensures Assign(other, Empty) in FillFirst(block, key, dev)
  {
    if block[0] != Assign(other, Empty) {
      FillFirstKeeps(block[1..], key, dev, other);
    }
  }

  predicate Paired(keys: seq<Key>, devs: seq<Device>, k: Key, d: Device)
    requires |keys| <= |devs|
  {
    exists i :: 0 <= i < |keys| && keys[i] == k && devs[i] == d
  }

  ghost predicate AllDeclared(block: Block, keys: seq<Key>) {
    forall i :: 0 <= i < |keys| ==> Assign(keys[i], Empty) in block
  }

  lemma StillDeclared(block: Block, keys: seq<Key>, dev: Device)
    requires keys != [] && Distinct(keys) && AllDeclared(block, keys)
    ensures Distinct(keys[1..]) && AllDeclared(FillFirst(block, keys[0], dev), keys[1..])
  {
    var rest := keys[1..];
    forall i | 0 <= i < |rest|
      ensures Assign(rest[i], Empty) in FillFirst(block, keys[0], dev)
    {
      assert rest[i] == keys[i + 1];
      FillFirstKeeps(block, keys[0], dev, keys[i + 1]);
    }
  }

  lemma PairedFirst(keys: seq<Key>, devs: seq<Device>, k: Key, d: Device)
    requires 0 < |keys| <= |devs|
    ensures Paired(keys, devs, k, d) <==> (keys[0] == k && devs[0] == d) || Paired(keys[1..], devs[1..], k, d)
  {
    if i :| 0 <= i < |keys[1..]| && keys[1..][i] == k && devs[1..][i] == d {
      assert keys[i + 1] == k && devs[i + 1] == d;
    }
    if i :| 0 <= i < |keys| && keys[i] == k && devs[i] == d {
      assert i > 0 ==> keys[1..][i - 1] == k && devs[1..][i - 1] == d;
    }
  }

  lemma {:induction false} FillAllBinds(block: Block, keys: seq<Key>, devs: seq<Device>, k: Key, d: Device)
    requires |keys| <= |devs| && Distinct(keys) && AllDeclared(block, keys)
    ensures Binds(FillAll(block, keys, devs), k, d) <==> Binds(block, k, d) || Paired(keys, devs, k, d)
    decreases |keys|
  {
    hide Binds, FillFirst, Distinct;
    if keys != [] {
      StillDeclared(block, keys, devs[0]);
      FillFirstBinds(block, keys[0], devs[0], k, d);
      FillAllBinds(FillFirst(block, keys[0], devs[0]), keys[1..], devs[1..], k, d);
      PairedFirst(keys, devs, k, d);
    }
  }

  predicate Bindable(l: Line, k: Key, d: Device) {
    l.Assign? && l.key == k && l.value.Devices? && d in l.value.devs
  }

  lemma BindsMember(text: Block, k: Key, d: Device)
    ensures Binds(text, k, d) <==> exists l :: l in text && Bindable(l, k, d)
  {
    if Binds(text, k, d) {
      var i :| 0 <= i < |text| && Bindable(text[i], k, d);
      assert text[i] in text;
    }
    if l :| l in text && Bindable(l, k, d) {
      var i :| 0 <= i < |text| && text[i] == l;
    }
  }

  function TestLine(devs: seq<Device>): Line
    requires devs != []
  {
    Assign(TestDev, Devices([devs[0]]))
  }

  function ScratchLine(external: bool, rest: seq<Device>): Line
    requires |rest| >= 2
  {
    if external || |rest| == 2 then Assign(ScratchDev, Devices([rest[1]])) else Assign(ScratchPool, Devices(rest[1..]))
  }

  function LogLine(devs: seq<Device>): Line
    requires devs != []
  {
    Assign(LogwritesDev, Devices([devs[|devs| - 1]]))
  }

  /** Enough devices for two filesystems, the external roles and the replay log. */
  predicate Enough(externals: seq<Key>, devs: seq<Device>, logwrites: bool) {
    && |devs| >= 2 + |externals| + (if logwrites then 1 else 0)
    && forall e :: e in externals ==> e in EXTERNAL_KEYS
  }

  predicate BindingLine(externals: seq<Key>, devs: seq<Device>, logwrites: bool, l: Line)
    requires Enough(externals, devs, logwrites)
  {
    l == TestLine(devs) || l == ScratchLine(externals != [], Rest(devs, logwrites)) || (logwrites && l == LogLine(devs))
  }

  lemma ArmedHasEnough(block: Block, devs: seq<Device>, logwrites: bool)
    requires Agnostic(block) && Inject(block, devs, logwrites).Ok?
    ensures Enough(Externals(block), devs, logwrites) && Remaining(block, devs, logwrites) == Rest(devs, logwrites)
  {
  }

  function DirLines(): seq<Line> {
    [Assign(TestDir, Literal("/media/test")), Assign(ScratchMnt, Literal("/media/scratch"))]
  }

  lemma BaseIs(block: Block, devs: seq<Device>, logwrites: bool)
    requires Agnostic(block) && Inject(block, devs, logwrites).Ok? && Enough(Externals(block), devs, logwrites)
    ensures Base(block, devs, logwrites)
         == [TestLine(devs)] + DirLines() + [ScratchLine(Externals(block) != [], Rest(devs, logwrites))]
            + if logwrites then [LogLine(devs)] else []
  {
    ArmedHasEnough(block, devs, logwrites);
    assert [TestLine(devs)] + DirLines() == [TestLine(devs), DirLines()[0], DirLines()[1]];
  }

  /** The lines that bind a device among those added. */
  lemma AddedBinders(block: Block, devs: seq<Device>, logwrites: bool, l: Line)
    requires Agnostic(block) && Inject(block, devs, logwrites).Ok? && Enough(Externals(block), devs, logwrites)
    ensures l in Added(block, Base(block, devs, logwrites)) && l.Assign? && l.value.Devices? <==>
              BindingLine(Externals(block), devs, logwrites, l)
  {
    BaseIs(block, devs, logwrites);
    InParts(l, TestLine(devs), DirLines(), ScratchLine(Externals(block) != [], Rest(devs, logwrites)),
            if logwrites then [LogLine(devs)] else []);
  }

  lemma InParts(l: Line, test: Line, dirs: seq<Line>, scratch: Line, log: seq<Line>)
    ensures l in [test] + dirs + [scratch] + log <==> l == test || l in dirs || l == scratch || l in log
  {
  }

  /** The external roles are the positions after the first two. */
  lemma ExternalRole(externals: seq<Key>, devs: seq<Device>, logwrites: bool, i: nat, k: Key)
    requires Enough(externals, devs, logwrites) && i < |devs|
    ensures k in EXTERNAL_KEYS && Role(externals, |devs|, logwrites, i) == Some(k) <==>
              2 <= i < 2 + |externals| && externals[i - 2] == k
  {
    assert 2 <= i < 2 + |externals| ==> externals[i - 2] in externals;
  }

  lemma ExternalPositions(externals: seq<Key>, devs: seq<Device>, logwrites: bool, k: Key, d: Device)
    requires Enough(externals, devs, logwrites)
    ensures Paired(externals, Rest(devs, logwrites)[2..], k, d) <==> k in EXTERNAL_KEYS && Called(externals, devs, logwrites, k, d)
  {
    var rest := Rest(devs, logwrites)[2..];
    assert forall i :: 0 <= i < |rest| ==> rest[i] == devs[i + 2];
    if Paired(externals, rest, k, d) {
      var i :| 0 <= i < |externals| && externals[i] == k && rest[i] == d;
      ExternalRole(externals, devs, logwrites, i + 2, k);
    }
    if k in EXTERNAL_KEYS && Called(externals, devs, logwrites, k, d) {
      var i :| 0 <= i < |devs| && devs[i] == d && Role(externals, |devs|, logwrites, i) == Some(k);
      ExternalRole(externals, devs, logwrites, i, k);
      assert externals[i - 2] == k && rest[i - 2] == d;
    }
  }

  lemma PositionOf(externals: seq<Key>, devs: seq<Device>, logwrites: bool, l: Line, k: Key, d: Device) returns (i: nat)
    requires Enough(externals, devs, logwrites) && BindingLine(externals, devs, logwrites, l) && Bindable(l, k, d)
    ensures k !in EXTERNAL_KEYS
    ensures i < |devs| && devs[i] == d && Role(externals, |devs|, logwrites, i) == Some(k)
  {
    var rest := Rest(devs, logwrites);
    if l == TestLine(devs) {
      i := 0;
    } else if l == ScratchLine(externals != [], rest) {
      if k.ScratchDev? {
        i := 1;
      } else {
        var j :| 0 <= j < |rest[1..]| && rest[1..][j] == d;
        i := j + 1;
      }
    } else {
      i := |devs| - 1;
    }
  }

  lemma LineOf(externals: seq<Key>, devs: seq<Device>, logwrites: bool, i: nat, k: Key) returns (l: Line)
    requires Enough(externals, devs, logwrites) && k !in EXTERNAL_KEYS
    requires i < |devs| && Role(externals, |devs|, logwrites, i) == Some(k)
    ensures Bindable(l, k, devs[i]) && BindingLine(externals, devs, logwrites, l)
  {
    var rest := Rest(devs, logwrites);
    assert forall j :: 0 <= j < |externals| ==> externals[j] in externals;
    if i >= |rest| {
      l := LogLine(devs);
    } else if i == 0 {
      l := TestLine(devs);
    } else {
      l := ScratchLine(externals != [], rest);
      assert rest[1..][i - 1] == devs[i];
    }
  }

  lemma BindersCalled(externals: seq<Key>, devs: seq<Device>, logwrites: bool, k: Key, d: Device)
    requires Enough(externals, devs, logwrites)
    ensures (exists l :: BindingLine(externals, devs, logwrites, l) && Bindable(l, k, d)) <==>
              k !in EXTERNAL_KEYS && Called(externals, devs, logwrites, k, d)
  {
    hide BindingLine, Bindable;
    if l :| BindingLine(externals, devs, logwrites, l) && Bindable(l, k, d) {
      var i := PositionOf(externals, devs, logwrites, l, k, d);
    }
    if k !in EXTERNAL_KEYS && Called(externals, devs, logwrites, k, d) {
      var i :| 0 <= i < |devs| && devs[i] == d && Role(externals, |devs|, logwrites, i) == Some(k);
      var l := LineOf(externals, devs, logwrites, i, k);
    }
  }

  /** The base lines bind the positions that no external role takes. */
  lemma BaseBinds(block: Block, devs: seq<Device>, logwrites: bool, k: Key, d: Device)
    requires Agnostic(block) && Inject(block, devs, logwrites).Ok? && Enough(Externals(block), devs, logwrites)
    ensures (exists l :: l in Added(block, Base(block, devs, logwrites)) && Bindable(l, k, d)) <==>
              k !in EXTERNAL_KEYS && CalledFor(block, devs, logwrites, k, d)
  {
    var externals, added := Externals(block), Added(block, Base(block, devs, logwrites));
    hide BindingLine, Agnostic, Inject, Enough, Called, Externals, Added, Base;
    forall l | Bindable(l, k, d)
      ensures l in added <==> BindingLine(externals, devs, logwrites, l)
    {
      AddedBinders(block, devs, logwrites, l);
    }
    BindersCalled(externals, devs, logwrites, k, d);
  }

  lemma AgnosticBindsNothing(block: Block, k: Key, d: Device)
    requires Agnostic(block)
    ensures !Binds(block, k, d)
  {
  }

  lemma ExternalsDeclared(block: Block)
    ensures Distinct(Externals(block))
    ensures AllDeclared(block, Externals(block))
  {
    EmptyAmongDistinct(block, EXTERNAL_KEYS);
    assert forall i :: 0 <= i < |Externals(block)| ==> Externals(block)[i] in Externals(block);
  }

  lemma FilledBinds(block: Block, devs: seq<Device>, logwrites: bool, k: Key, d: Device)
    requires Agnostic(block) && Enough(Externals(block), devs, logwrites)
    ensures Binds(FillAll(block, Externals(block), Rest(devs, logwrites)[2..]), k, d) <==>
              k in EXTERNAL_KEYS && CalledFor(block, devs, logwrites, k, d)
  {
    hide Agnostic, Distinct, AllDeclared, Paired, Called, Binds, Externals, FillAll;
    var externals, rest := Externals(block), Rest(devs, logwrites)[2..];
    ExternalsDeclared(block);
    FillAllBinds(block, externals, rest, k, d);
    AgnosticBindsNothing(block, k, d);
    ExternalPositions(externals, devs, logwrites, k, d);
  }

  /** An armed, device-agnostic section binds exactly the devices their positions call for. */
  lemma BindsExactly(block: Block, devs: seq<Device>, logwrites: bool, k: Key, d: Device)
    requires Agnostic(block) && Inject(block, devs, logwrites).Ok?
    ensures Binds(Inject(block, devs, logwrites).value, k, d) <==> CalledFor(block, devs, logwrites, k, d)
  {
    ArmedHasEnough(block, devs, logwrites);
    var filled := FillAll(block, Externals(block), Rest(devs, logwrites)[2..]);
    var added := Added(block, Base(block, devs, logwrites));
    FilledBinds(block, devs, logwrites, k, d);
    BaseBinds(block, devs, logwrites, k, d);
    BindsMember(added, k, d);
    BindsConcat(filled, added, k, d);
  }

  /** Distinct devices: none serves two roles. */
  lemma NoDeviceTwice(block: Block, devs: seq<Device>, logwrites: bool, k: Key, k': Key, d: Device)
    requires Agnostic(block) && Distinct(devs) && Inject(block, devs, logwrites).Ok?
    requires Binds(Inject(block, devs, logwrites).value, k, d) && Binds(Inject(block, devs, logwrites).value, k', d)
    ensures k == k'
  {
    BindsExactly(block, devs, logwrites, k, d);
    BindsExactly(block, devs, logwrites, k', d);
  }

  /** The second device goes to one of the two scratch variables, and the other is unset. */
  lemma ScratchRole(block: Block, devs: seq<Device>, logwrites: bool, i: nat)
    requires Agnostic(block) && Inject(block, devs, logwrites).Ok? && i < |devs|
    ensures var role := RoleOf(block, |devs|, logwrites, 1); role == Some(ScratchDev) || role == Some(ScratchPool)
    ensures var role := RoleOf(block, |devs|, logwrites, i);
            role == Some(ScratchDev) || role == Some(ScratchPool) ==> role == RoleOf(block, |devs|, logwrites, 1)
  {
    var externals := Externals(block);
    assert forall e :: e in externals ==> e != ScratchDev && e != ScratchPool;
    assert 0 <= i - 2 < |externals| ==> externals[i - 2] in externals;
  }

  ghost predicate Bound(text: Block, key: Key) {
    exists d :: Binds(text, key, d)
  }

  lemma BoundExactly(block: Block, devs: seq<Device>, logwrites: bool, key: Key)
    requires Agnostic(block) && Inject(block, devs, logwrites).Ok?
    requires key == ScratchDev || key == ScratchPool
    ensures Bound(Inject(block, devs, logwrites).value, key) <==> RoleOf(block, |devs|, logwrites, 1) == Some(key)
  {
    var text := Inject(block, devs, logwrites).value;
    BindsExactly(block, devs, logwrites, key, devs[1]);
    if d :| Binds(text, key, d) {
      BindsExactly(block, devs, logwrites, key, d);
      var i :| 0 <= i < |devs| && devs[i] == d && RoleOf(block, |devs|, logwrites, i) == Some(key);
      ScratchRole(block, devs, logwrites, i);
    }
  }

  /** The test device is always bound, and exactly one of the two scratch variables is. */
  lemma OneScratch(block: Block, devs: seq<Device>, logwrites: bool)
    requires Agnostic(block) && Inject(block, devs, logwrites).Ok?
    ensures var text := Inject(block, devs, logwrites).value;
            Binds(text, TestDev, devs[0]) && (Bound(text, ScratchDev) <==> !Bound(text, ScratchPool))
  {
    BindsExactly(block, devs, logwrites, TestDev, devs[0]);
    assert RoleOf(block, |devs|, logwrites, 0) == Some(TestDev);
    BoundExactly(block, devs, logwrites, ScratchDev);
    BoundExactly(block, devs, logwrites, ScratchPool);
    ScratchRole(block, devs, logwrites, 0);
  }
}
