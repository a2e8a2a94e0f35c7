/** The shipped catalog: `xfs_catalog_text` of f/fstests/common.py prints a profile table,
    and the readers of the same file give it back. */
module Catalog {
  import opened Wrappers
  import opened Text
  import opened Lines
  import opened Readers
  import opened Sections

  datatype Needs = NoDevice | Rtdev | Logdev

  datatype Profile = Profile(name: string, mkfs: string, mount: string, needs: Needs)

  /** A name a header can carry, and options that stay on one line. */
  predicate WellFormed(p: Profile) {
    GoodName(p.name) && OneLine(p.mkfs) && OneLine(p.mount)
  }

  function Suffix(needs: Needs): string {
    if needs.Logdev? then "LOGDEV" else "RTDEV"
  }

  function HeaderLine(p: Profile): string { "[" + p.name + "]" }

  /** The assignments of a profile's block, in the order they are printed. */
  function Assignments(p: Profile): seq<(string, string)> {
    [("FSTYP", "xfs")] + Optional("MKFS_OPTIONS", p.mkfs) + Optional("MOUNT_OPTIONS", p.mount) + Externals(p.needs)
  }

  function Optional(key: string, value: string): seq<(string, string)> {
    if value != "" then [(key, "\"" + value + "\"")] else []
  }

  function Externals(needs: Needs): seq<(string, string)> {
    if needs.NoDevice? then []
    else [("USE_EXTERNAL", "yes"), ("TEST_" + Suffix(needs), ""), ("SCRATCH_" + Suffix(needs), "")]
  }

  function Printed(assignments: seq<(string, string)>): (r: seq<string>)
    ensures |r| == |assignments|
    ensures forall i :: 0 <= i < |r| ==> r[i] == assignments[i].0 + "=" + assignments[i].1
  {
    seq(|assignments|, i requires 0 <= i < |assignments| => assignments[i].0 + "=" + assignments[i].1)
  }

  function ProfileLines(p: Profile): seq<string> {
    [HeaderLine(p)] + Printed(Assignments(p))
  }

  function ProfileBlocks(ps: seq<Profile>): (r: seq<seq<string>>)
    ensures |r| == |ps| && forall i :: 0 <= i < |r| ==> r[i] == ProfileLines(ps[i])
  {
    seq(|ps|, i requires 0 <= i < |ps| => ProfileLines(ps[i]))
  }

  function Texts(blocks: seq<seq<string>>): seq<string> {
    if blocks == [] then [] else Texts(blocks[..|blocks| - 1]) + [Join(blocks[|blocks| - 1], "\n")]
  }

  function CatalogText(ps: seq<Profile>): string {
    Join(Texts(ProfileBlocks(ps)), "\n\n") + "\n"
  }

  function MkfsLines(p: Profile): seq<string> {
    if p.mkfs != "" then ["MKFS_OPTIONS=\"" + p.mkfs + "\""] else []
  }

  function MountLines(p: Profile): seq<string> {
    if p.mount != "" then ["MOUNT_OPTIONS=\"" + p.mount + "\""] else []
  }

  function ExternalLines(p: Profile): seq<string> {
    if p.needs.NoDevice? then []
    else ["USE_EXTERNAL=yes", "TEST_" + Suffix(p.needs) + "=", "SCRATCH_" + Suffix(p.needs) + "="]
  }

  method RenderCatalog(ps: seq<Profile>) returns (text: string)
    ensures text == CatalogText(ps)
  {
    var blocks: seq<string> := [];
    for i := 0 to |ps|
      invariant blocks == Texts(ProfileBlocks(ps[..i]))
    {
      var p := ps[i];
      ghost var top := ["[" + p.name + "]", "FSTYP=xfs"];
      var lines := ["[" + p.name + "]", "FSTYP=xfs"];
      if p.mkfs != "" {
        lines := lines + ["MKFS_OPTIONS=\"" + p.mkfs + "\""];
      }
      assert lines == top + MkfsLines(p);
      if p.mount != "" {
        lines := lines + ["MOUNT_OPTIONS=\"" + p.mount + "\""];
      }
      assert lines == top + MkfsLines(p) + MountLines(p);
      if !p.needs.NoDevice? {
        var suffix := if p.needs.Logdev? then "LOGDEV" else "RTDEV";
        lines := lines + ["USE_EXTERNAL=yes", "TEST_" + suffix + "=", "SCRATCH_" + suffix + "="];
      }
      assert lines == top + MkfsLines(p) + MountLines(p) + ExternalLines(p);
      LinesAsPrinted(p, lines);
      hide ProfileLines, ProfileBlocks, Texts;
      OneMoreText(ps, i);
      blocks := blocks + [Join(lines, "\n")];
    }
    assert ps[..|ps|] == ps;
    text := Join(blocks, "\n\n") + "\n";
  }

  lemma OneMoreText(ps: seq<Profile>, i: nat)
    requires i < |ps|
    ensures Texts(ProfileBlocks(ps[..i + 1])) == Texts(ProfileBlocks(ps[..i])) + [Join(ProfileLines(ps[i]), "\n")]
  {
    assert ProfileBlocks(ps[..i + 1])[..i] == ProfileBlocks(ps[..i]);
  }

  lemma LinesAsPrinted(p: Profile, lines: seq<string>)
    requires lines == ["[" + p.name + "]", "FSTYP=xfs"] + MkfsLines(p) + MountLines(p) + ExternalLines(p)
    ensures lines == ProfileLines(p)
  {
    assert "FSTYP" + "=" + "xfs" == "FSTYP=xfs";
    assert "MKFS_OPTIONS" + "=" + ("\"" + p.mkfs + "\"") == "MKFS_OPTIONS=\"" + p.mkfs + "\"";
    assert "MOUNT_OPTIONS" + "=" + ("\"" + p.mount + "\"") == "MOUNT_OPTIONS=\"" + p.mount + "\"";
    assert "USE_EXTERNAL" + "=" + "yes" == "USE_EXTERNAL=yes";
    assert "TEST_" + Suffix(p.needs) + "=" + "" == "TEST_" + Suffix(p.needs) + "=";
    assert "SCRATCH_" + Suffix(p.needs) + "=" + "" == "SCRATCH_" + Suffix(p.needs) + "=";
    var printed := ProfileLines(p);
    assert |lines| == |printed|;
    assert forall i :: 0 <= i < |lines| ==> lines[i] == printed[i];
  }

  // ----- each line reads as what it was printed from ------------------------------

  lemma QuotesComeOff(v: string)
    ensures StripQuotes("\"" + v + "\"") == v
  {
    var q := "\"" + v + "\"";
    StripTrimmed(q);
    assert q[1..|q| - 1] == v;
  }

  lemma PlainKeyIsGood(key: string)
    requires key != "" && forall i :: 0 <= i < |key| ==> 'A' <= key[i] <= 'Z' || key[i] == '_'
    ensures GoodKey(key)
  {
  }

  lemma FixedKeysAreGood()
    ensures GoodKey("FSTYP") && GoodKey("MKFS_OPTIONS") && GoodKey("MOUNT_OPTIONS") && GoodKey("USE_EXTERNAL")
  {
    PlainKeyIsGood("FSTYP");
    PlainKeyIsGood("MKFS_OPTIONS");
    PlainKeyIsGood("MOUNT_OPTIONS");
    PlainKeyIsGood("USE_EXTERNAL");
  }

  lemma DeviceKeysAreGood(needs: Needs)
    ensures GoodKey("TEST_" + Suffix(needs)) && GoodKey("SCRATCH_" + Suffix(needs))
  {
    var suffix := Suffix(needs);
    assert forall i :: 0 <= i < |suffix| ==> 'A' <= suffix[i] <= 'Z';
    PlainKeyIsGood("TEST_" + suffix);
    PlainKeyIsGood("SCRATCH_" + suffix);
  }

  predicate GoodAssignment(a: (string, string)) {
    GoodKey(a.0) && GoodValue(a.1)
  }

  lemma QuotedIsGood(key: string, value: string)
    requires GoodKey(key) && OneLine(value)
    ensures GoodAssignment((key, "\"" + value + "\""))
  {
  }

  lemma KeysAreGood(p: Profile)
    requires WellFormed(p)
    ensures forall a :: a in Assignments(p) ==> GoodAssignment(a)
  {
    FixedKeysAreGood();
    DeviceKeysAreGood(p.needs);
    QuotedIsGood("MKFS_OPTIONS", p.mkfs);
    QuotedIsGood("MOUNT_OPTIONS", p.mount);
    assert GoodAssignment(("FSTYP", "xfs")) && GoodAssignment(("USE_EXTERNAL", "yes"));
    forall a | a in Assignments(p)
      ensures GoodAssignment(a)
    {
      assert a == ("FSTYP", "xfs") || a == ("MKFS_OPTIONS", "\"" + p.mkfs + "\"")
          || a == ("MOUNT_OPTIONS", "\"" + p.mount + "\"") || a == ("USE_EXTERNAL", "yes")
          || a == ("TEST_" + Suffix(p.needs), "") || a == ("SCRATCH_" + Suffix(p.needs), "");
    }
  }

  function Updated(vars: Vars, assignments: seq<(string, string)>): Vars
    decreases |assignments|
  {
    if assignments == [] then vars
    else Updated(vars[assignments[0].0 := StripQuotes(assignments[0].1)], assignments[1..])
  }

  /** What `section_vars` should give for a profile. */
  function ProfileVars(p: Profile): Vars {
    map["FSTYP" := "xfs"] + OptionalVar("MKFS_OPTIONS", p.mkfs) + OptionalVar("MOUNT_OPTIONS", p.mount)
    + ExternalVars(p.needs)
  }

  function OptionalVar(key: string, value: string): Vars {
    if value != "" then map[key := value] else map[]
  }

  function ExternalVars(needs: Needs): Vars {
    match needs
    case NoDevice => map[]
    case Rtdev => map["USE_EXTERNAL" := "yes", "TEST_RTDEV" := "", "SCRATCH_RTDEV" := ""]
    case Logdev => map["USE_EXTERNAL" := "yes", "TEST_LOGDEV" := "", "SCRATCH_LOGDEV" := ""]
  }

  lemma {:induction false} ReadAssignments(r: Reading<string, string>, assignments: seq<(string, string)>, section: string)
    requires forall a :: a in assignments ==> GoodAssignment(a)
    requires r.current == Some(section)
    ensures ReadAll(r, Kinds(Printed(assignments)), section, true) == r.(vars := Updated(r.vars, assignments))
    decreases |assignments|
  {
    if assignments != [] {
      var a := assignments[0];
      assert a in assignments;
      AssignmentReads(a.0, a.1);
      assert Kinds(Printed(assignments))[1..] == Kinds(Printed(assignments[1..]));
      var next := ReadOne(r, KindOf(a.0 + "=" + a.1), section, true);
      ReadAssignments(next, assignments[1..], section);
    }
  }

  lemma AssignmentsOpenNothing(assignments: seq<(string, string)>)
    requires forall a :: a in assignments ==> GoodAssignment(a)
    ensures forall i :: 0 <= i < |assignments| ==> !KindOf(Printed(assignments)[i]).Opens? && OneLine(Printed(assignments)[i])
  {
    forall i | 0 <= i < |assignments|
      ensures !KindOf(Printed(assignments)[i]).Opens? && OneLine(Printed(assignments)[i])
    {
      assert assignments[i] in assignments;
      AssignmentReads(assignments[i].0, assignments[i].1);
    }
  }

  lemma {:induction false} UpdatedConcat(vars: Vars, a: seq<(string, string)>, b: seq<(string, string)>)
    ensures Updated(vars, a + b) == Updated(Updated(vars, a), b)
    decreases |a|
  {
    if a == [] {
      assert a + b == b;
    } else {
      assert (a + b)[1..] == a[1..] + b;
      UpdatedConcat(vars[a[0].0 := StripQuotes(a[0].1)], a[1..], b);
    }
  }

  lemma UpdatedOne(vars: Vars, key: string, value: string)
    ensures Updated(vars, [(key, value)]) == vars + map[key := StripQuotes(value)]
  {
    assert [(key, value)][1..] == [];
  }

  lemma UpdatedOptional(vars: Vars, key: string, value: string)
    ensures Updated(vars, Optional(key, value)) == vars + OptionalVar(key, value)
  {
    if value != "" {
      UpdatedOne(vars, key, "\"" + value + "\"");
      QuotesComeOff(value);
    }
  }

  lemma UpdatedExternal(vars: Vars, test: string, scratch: string)
    requires test != scratch && test != "USE_EXTERNAL" && scratch != "USE_EXTERNAL"
    ensures Updated(vars, [("USE_EXTERNAL", "yes"), (test, ""), (scratch, "")])
         == vars + map["USE_EXTERNAL" := "yes", test := "", scratch := ""]
  {
    StripTrimmed("yes");
    StripTrimmed("");
    var use, t, s := ("USE_EXTERNAL", "yes"), (test, ""), (scratch, "");
    assert [use, t, s][1..] == [t, s] && [t, s][1..] == [s] && [s][1..] == [];
    assert Updated(vars, [use, t, s]) == Updated(vars["USE_EXTERNAL" := "yes"], [t, s]);
    assert Updated(vars["USE_EXTERNAL" := "yes"], [t, s]) == Updated(vars["USE_EXTERNAL" := "yes"][test := ""], [s]);
    var after := vars["USE_EXTERNAL" := "yes"][test := ""][scratch := ""];
    assert Updated(vars["USE_EXTERNAL" := "yes"][test := ""], [s]) == after;
    assert after == vars + map["USE_EXTERNAL" := "yes", test := "", scratch := ""];
  }

  lemma UpdatedExternals(vars: Vars, needs: Needs)
    ensures Updated(vars, Externals(needs)) == vars + ExternalVars(needs)
  {
    if !needs.NoDevice? {
      var test, scratch := "TEST_" + Suffix(needs), "SCRATCH_" + Suffix(needs);
      assert test[0] == 'T' && scratch[0] == 'S';
      assert test == if needs.Logdev? then "TEST_LOGDEV" else "TEST_RTDEV";
      assert scratch == if needs.Logdev? then "SCRATCH_LOGDEV" else "SCRATCH_RTDEV";
      UpdatedExternal(vars, test, scratch);
    }
  }

  lemma UpdatedParts(vars: Vars, a: seq<(string, string)>, b: seq<(string, string)>, va: Vars, vb: Vars)
    requires Updated(vars, a) == va && Updated(va, b) == vb
    ensures Updated(vars, a + b) == vb
  {
    UpdatedConcat(vars, a, b);
  }

  lemma UpdatedIsProfileVars(p: Profile)
    ensures Updated(map[], Assignments(p)) == ProfileVars(p)
  {
    var fstyp, mkfs, mount := [("FSTYP", "xfs")], Optional("MKFS_OPTIONS", p.mkfs), Optional("MOUNT_OPTIONS", p.mount);
    var one := map["FSTYP" := "xfs"];
    var two := one + OptionalVar("MKFS_OPTIONS", p.mkfs);
    var three := two + OptionalVar("MOUNT_OPTIONS", p.mount);
    FirstVar();
    UpdatedOptional(one, "MKFS_OPTIONS", p.mkfs);
    UpdatedOptional(two, "MOUNT_OPTIONS", p.mount);
    UpdatedExternals(three, p.needs);
    UpdatedParts(map[], fstyp, mkfs, one, two);
    UpdatedParts(map[], fstyp + mkfs, mount, two, three);
    UpdatedParts(map[], fstyp + mkfs + mount, Externals(p.needs), three, three + ExternalVars(p.needs));
  }

  lemma FirstVar()
    ensures Updated(map[], [("FSTYP", "xfs")]) == map["FSTYP" := "xfs"]
  {
    StripTrimmed("xfs");
    UpdatedOne(map[], "FSTYP", "xfs");
  }

  // ----- the text as lines --------------------------------------------------------

  lemma {:induction false} JoinConcat(a: seq<string>, b: seq<string>, sep: string)
    requires a != [] && b != []
    ensures Join(a + b, sep) == Join(a, sep) + sep + Join(b, sep)
  {
    if |a| == 1 {
      assert (a + b)[1..] == b;
    } else {
      assert (a + b)[1..] == a[1..] + b;
      JoinConcat(a[1..], b, sep);
      assert a[0] + sep + (Join(a[1..], sep) + sep + Join(b, sep)) == a[0] + sep + Join(a[1..], sep) + sep + Join(b, sep);
    }
  }

  lemma BlankBetween(a: seq<string>, b: seq<string>)
    requires a != [] && b != []
    ensures Join(a + ([""] + b), "\n") == Join(a, "\n") + "\n\n" + Join(b, "\n")
  {
    JoinConcat(a, [""] + b, "\n");
    JoinConcat([""], b, "\n");
    var rest := Join(b, "\n");
    assert "\n" + ("" + "\n" + rest) == "\n\n" + rest;
  }

  lemma {:induction false} TextsAreSpread(blocks: seq<seq<string>>)
    requires blocks != [] && forall i :: 0 <= i < |blocks| ==> blocks[i] != []
    ensures Join(Texts(blocks), "\n\n") == Join(Spread(blocks, ""), "\n") && Spread(blocks, "") != []
  {
    var n := |blocks| - 1;
    if n == 0 {
      assert Texts(blocks) == [Join(blocks[0], "\n")];
    } else {
      var before := blocks[..n];
      TextsAreSpread(before);
      JoinLength(Texts(before), Join(blocks[n], "\n"), "\n\n");
      assert Texts(before) != [];
      BlankBetween(Spread(before, ""), blocks[n]);
    }
  }

  function BlockKinds(blocks: seq<seq<string>>): (r: seq<seq<LineKind>>)
    ensures |r| == |blocks| && forall i :: 0 <= i < |r| ==> r[i] == Kinds(blocks[i])
  {
    seq(|blocks|, i requires 0 <= i < |blocks| => Kinds(blocks[i]))
  }

  lemma KindsConcat(a: seq<string>, b: seq<string>)
    ensures Kinds(a + b) == Kinds(a) + Kinds(b)
  {
  }

  lemma BlankReadsAsNothing()
    ensures Kinds([""]) == [Neither]
  {
    StripTrimmed("");
  }

  lemma {:induction false} SpreadKinds(blocks: seq<seq<string>>)
    ensures Kinds(Spread(blocks, "")) == Spread(BlockKinds(blocks), Neither)
  {
    var n := |blocks| - 1;
    if n > 0 {
      SpreadKinds(blocks[..n]);
      BlankReadsAsNothing();
      KindsConcat([""], blocks[n]);
      KindsConcat(Spread(blocks[..n], ""), [""] + blocks[n]);
      assert BlockKinds(blocks)[..n] == BlockKinds(blocks[..n]);
    }
  }

  // ----- the round trip -----------------------------------------------------------

  ghost predicate AllWellFormed(ps: seq<Profile>) {
    && (forall i :: 0 <= i < |ps| ==> WellFormed(ps[i]))
    && forall i, j :: 0 <= i < j < |ps| ==> ps[i].name != ps[j].name
  }

  lemma ProfileOpens(p: Profile)
    requires WellFormed(p)
    ensures OpensOnly(Kinds(ProfileLines(p)), p.name)
    ensures forall i :: 0 <= i < |ProfileLines(p)| ==> OneLine(ProfileLines(p)[i])
  {
    KeysAreGood(p);
    HeaderReads(p.name);
    AssignmentsOpenNothing(Assignments(p));
  }

  lemma ProfileReads(p: Profile)
    requires WellFormed(p)
    ensures ReadAll(Reading(None, map[]), Kinds(ProfileLines(p)), p.name, true).vars == ProfileVars(p)
  {
    KeysAreGood(p);
    HeaderReads(p.name);
    assert Kinds(ProfileLines(p))[1..] == Kinds(Printed(Assignments(p)));
    ReadAssignments(Reading(Some(p.name), map[]), Assignments(p), p.name);
    UpdatedIsProfileVars(p);
  }

  function Names(ps: seq<Profile>): (r: seq<string>)
    ensures |r| == |ps| && forall i :: 0 <= i < |r| ==> r[i] == ps[i].name
  {
    seq(|ps|, i requires 0 <= i < |ps| => ps[i].name)
  }

  function ProfileKinds(ps: seq<Profile>): seq<seq<LineKind>> {
    BlockKinds(ProfileBlocks(ps))
  }

  lemma AllButTheLast(ps: seq<Profile>)
    requires ps != [] && AllWellFormed(ps)
    ensures var n := |ps| - 1;
            && ProfileKinds(ps)[..n] == ProfileKinds(ps[..n]) && Names(ps)[..n] == Names(ps[..n])
            && ProfileKinds(ps)[n] == Kinds(ProfileLines(ps[n])) && Names(ps)[n] == ps[n].name && ps[n].name !in Names(ps)[..n]
            && AllWellFormed(ps[..n]) && WellFormed(ps[n])
  {
    hide WellFormed, ProfileLines, Kinds;
  }

  lemma {:induction false} ProfilesOpen(ps: seq<Profile>)
    requires AllWellFormed(ps)
    ensures AllOpen(ProfileKinds(ps), Names(ps))
  {
    if ps != [] {
      var n := |ps| - 1;
      AllButTheLast(ps);
      assert |ProfileKinds(ps)| == |Names(ps)| == |ps|;
      hide OpensOnly, WellFormed, ProfileLines, Kinds, AllWellFormed, ProfileKinds, Names;
      ProfileOpens(ps[n]);
      ProfilesOpen(ps[..n]);
    }
  }

  lemma {:induction false} SpreadOneLine(blocks: seq<seq<string>>)
    requires forall b, i :: 0 <= b < |blocks| && 0 <= i < |blocks[b]| ==> OneLine(blocks[b][i])
    ensures forall i :: 0 <= i < |Spread(blocks, "")| ==> OneLine(Spread(blocks, "")[i])
  {
    var n := |blocks| - 1;
    if n > 0 {
      SpreadOneLine(blocks[..n]);
    }
  }

  lemma TextSplits(ps: seq<Profile>)
    requires ps != [] && AllWellFormed(ps)
    ensures Kinds(SplitLines(CatalogText(ps))) == Spread(ProfileKinds(ps), Neither)
  {
    var blocks := ProfileBlocks(ps);
    forall b, i | 0 <= b < |blocks| && 0 <= i < |blocks[b]|
      ensures OneLine(blocks[b][i])
    {
      ProfileOpens(ps[b]);
    }
    TextsAreSpread(blocks);
    SpreadOneLine(blocks);
    SplitJoined(Spread(blocks, ""));
    SpreadKinds(blocks);
  }

  /** The names come back in order. */
  lemma CatalogNames(ps: seq<Profile>)
    requires AllWellFormed(ps)
    ensures ParseSections(CatalogText(ps)) == Names(ps)
  {
    if ps == [] {
      SplitFirstLine("", "", "");
      assert CatalogText(ps) == "" + "\n" + "" && SplitLines(CatalogText(ps)) == [""];
      BlankReadsAsNothing();
      NamesPlain<string, string>([], [Neither]);
    } else {
      TextSplits(ps);
      ProfilesOpen(ps);
      SpreadNames(ProfileKinds(ps), Names(ps));
    }
  }

  lemma CatalogVars(ps: seq<Profile>, k: nat)
    requires AllWellFormed(ps) && k < |ps|
    ensures SectionVars(CatalogText(ps), ps[k].name) == ProfileVars(ps[k])
  {
    CatalogNames(ps);
    TextSplits(ps);
    ProfilesOpen(ps);
    SpreadVars(Reading(None, map[]), ProfileKinds(ps), Names(ps), k);
    ProfileReads(ps[k]);
  }

  /** So do the options of every profile, from the whole text and from the piece cut out for
      its section. */
  lemma CatalogRoundTrip(ps: seq<Profile>, k: nat)
    requires AllWellFormed(ps) && k < |ps|
    ensures var text, name := CatalogText(ps), ps[k].name;
            && SectionVars(text, name) == ProfileVars(ps[k])
            && SectionVars(SectionBlock(text, name), name) == ProfileVars(ps[k])
  {
    CatalogVars(ps, k);
    TextSplits(ps);
    ProfilesOpen(ps);
    var at := SpreadOnce(ProfileKinds(ps), Names(ps), k);
    BlockRefinesFile(CatalogText(ps), ps[k].name, at);
  }
}
