/** What rotation keeps over any number of runs in which nobody deletes a rotated file. */
module RotationRuns {
  import opened Wrappers
  import opened Text
  import opened Numbering
  import opened Renaming
  import opened Rotation

  /** The indices in use are exactly 1..m, and no log or artifact carries a later one. */
  ghost predicate Indexed(s: Section, m: nat) {
    && (forall k: nat {:trigger ResultName(k)} :: ResultName(k) in s.files <==> 1 <= k <= m)
    && (forall k: nat {:trigger LogName(k)} :: LogName(k) in s.files ==> 1 <= k <= m)
    && forall g :: g in s.groups ==> GroupIndexed(s.groups[g], m)
  }

  ghost predicate GroupIndexed(files: Dir, m: nat) {
    forall name, k: nat {:trigger Carries(name, k)} :: name in files && Carries(name, k) ==> k <= m
  }

  /** The name is `<base>.<index>.<something>`. */
  ghost predicate Carries(name: string, k: nat) {
    HasDot(name) && Numbered(Rest(name), k)
  }

  /** A rotation of results and artifacts, in both steps with one index. */
  ghost predicate Rotates(s: Section, after: Section, n: nat) {
    && "result.xml" in s.files
    && IsFirstFree(s.files, n)
    && after.files == RotatedResults(s.files, n)
    && GroupsRenamed(s.groups, after.groups, n, {})
  }

  /** One render: it rotates exactly when the section has a result, and else moves nothing. */
  ghost predicate Renders(s: Section, after: Section, n: nat) {
    if "result.xml" in s.files then Rotates(s, after, n) else after == s
  }

  ghost predicate IsArchived(name: string) {
    exists k: nat :: name == ResultName(k) || name == LogName(k)
  }

  ghost predicate IsNumberedArtifact(name: string) {
    exists k: nat :: Carries(name, k)
  }

  function Group(s: Section, g: string): Dir {
    if g in s.groups then s.groups[g] else map[]
  }

  /** A test run writes, replaces and removes what it likes except archived files. */
  ghost predicate TestRun(s: Section, after: Section) {
    && (forall name :: IsArchived(name) ==> Get(after.files, name) == Get(s.files, name))
    && forall g, name {:trigger Get(Group(after, g), name)} ::
         IsNumberedArtifact(name) ==> Get(Group(after, g), name) == Get(Group(s, g), name)
  }

  // ----- one rotation -------------------------------------------------------------

  lemma FirstFreeIsNext(s: Section, m: nat, n: nat)
    requires Indexed(s, m) && IsFirstFree(s.files, n)
    ensures n == m + 1
  {
    assert ResultName(m + 1) !in s.files;
    assert n >= m + 1;
  }

  lemma GroupFree(files: Dir, m: nat)
    requires GroupIndexed(files, m)
    ensures Free(files, m + 1)
  {
    assert forall name :: name in files ==> !Carries(name, m + 1);
  }

  lemma RenamedBack(before: Dir, after: Dir, n: nat, t: string) returns (name: string)
    requires IsRenaming(before, after, n) && t in after
    ensures name in before && NewName(before, n, name) == t && after[t] == before[name]
  {
    var move := MoveMap(before, n);
    name :| name in before && NameNow(move, {}, name) == t;
  }

  lemma RenamedForward(before: Dir, after: Dir, n: nat, name: string)
    requires IsRenaming(before, after, n) && name in before
    ensures Get(after, NewName(before, n, name)) == Some(before[name])
  {
    assert NameNow(MoveMap(before, n), {}, name) == NewName(before, n, name);
  }

  lemma NewNameIndex(before: Dir, m: nat, name: string, k: nat)
    requires GroupIndexed(before, m) && name in before && Carries(NewName(before, m + 1, name), k)
    ensures k <= m + 1
  {
    if NewName(before, m + 1, name) != name {
      TargetParts(name, m + 1);
      NumberedOnce(Rest(Target(name, m + 1)), m + 1, k);
    }
  }

  lemma GroupStaysIndexed(before: Dir, after: Dir, m: nat)
    requires GroupIndexed(before, m) && IsRenaming(before, after, m + 1)
    ensures GroupIndexed(after, m + 1)
  {
    forall t, k: nat | t in after && Carries(t, k)
      ensures k <= m + 1
    {
      var name := RenamedBack(before, after, m + 1, t);
      NewNameIndex(before, m, name, k);
    }
  }

  /** A rotation overwrites nothing and uses exactly the next index. */
  lemma RotationSafe(s: Section, after: Section, m: nat, n: nat)
    requires Indexed(s, m) && Rotates(s, after, n)
    ensures n == m + 1 && Indexed(after, n)
    ensures ResultsKept(s.files, n)
    ensures forall g :: g in s.groups ==> Free(s.groups[g], n)
  {
    ResultsSafe(s, after, m, n);
    GroupsSafe(s, after, m, n);
  }

  lemma ResultsSafe(s: Section, after: Section, m: nat, n: nat)
    requires Indexed(s, m) && Rotates(s, after, n)
    ensures n == m + 1 && ResultsKept(s.files, n)
    ensures forall k: nat :: ResultName(k) in after.files <==> 1 <= k <= n
    ensures forall k: nat :: LogName(k) in after.files ==> 1 <= k <= n
  {
    FirstFreeIsNext(s, m, n);
    assert LogName(n) !in s.files;
    RotateResultsKeepsExactly(s.files, n);
    forall k: nat
      ensures ResultName(k) in after.files <==> 1 <= k <= n
      ensures LogName(k) in after.files ==> 1 <= k <= n
    {
      NamesApart(k, n);
      NamesApart(n, k);
    }
  }

  lemma GroupsSafe(s: Section, after: Section, m: nat, n: nat)
    requires Indexed(s, m) && Rotates(s, after, n)
    ensures forall g :: g in s.groups ==> g in after.groups && Free(s.groups[g], n) && GroupIndexed(after.groups[g], n)
  {
    FirstFreeIsNext(s, m, n);
    forall g | g in s.groups
      ensures Free(s.groups[g], n) && GroupIndexed(after.groups[g], n)
    {
      GroupFree(s.groups[g], m);
      GroupStaysIndexed(s.groups[g], after.groups[g], m);
    }
  }

  /** Both steps as `main` chains them: the index the results got is the artifacts' too, and
      without a result neither moves anything. */
  method RotateSection(dir: SectionDir, ghost m: nat) returns (kept: Option<nat>)
    requires Indexed(Section(dir.files, dir.groups), m)
    modifies dir
    ensures kept.None? <==> "result.xml" !in old(dir.files)
    ensures kept.None? ==> dir.files == old(dir.files) && dir.groups == old(dir.groups)
    ensures kept.Some? ==> kept.value == m + 1
    ensures Renders(Section(old(dir.files), old(dir.groups)), Section(dir.files, dir.groups), m + 1)
    ensures kept.Some? ==> Indexed(Section(dir.files, dir.groups), m + 1)
  {
    ghost var s := Section(dir.files, dir.groups);
    kept := dir.RotateResults();
    if kept.Some? {
      FirstFreeIsNext(s, m, kept.value);
      forall g | g in dir.groups
        ensures Free(dir.groups[g], kept.value)
      {
        GroupFree(s.groups[g], m);
      }
      var _ := dir.RotateFailureArtifacts(kept.value);
      RotationSafe(s, Section(dir.files, dir.groups), m, kept.value);
    }
  }

  lemma TestRunIndexed(s: Section, after: Section, m: nat)
    requires Indexed(s, m) && TestRun(s, after)
    ensures Indexed(after, m)
  {
    forall k: nat
      ensures ResultName(k) in after.files <==> 1 <= k <= m
      ensures LogName(k) in after.files ==> 1 <= k <= m
    {
      assert IsArchived(ResultName(k)) && IsArchived(LogName(k));
      assert Get(after.files, ResultName(k)) == Get(s.files, ResultName(k));
      assert Get(after.files, LogName(k)) == Get(s.files, LogName(k));
    }
    forall g, name, k: nat | g in after.groups && name in after.groups[g] && Carries(name, k)
      ensures k <= m
    {
      assert IsNumberedArtifact(name);
      assert Get(Group(after, g), name) == Get(Group(s, g), name);
      assert name in s.groups[g];
    }
  }

  /** After a rotation nothing is left under a name the next run would overwrite: no result,
      no log and no failure artifact. */
  lemma NothingLeftToOverwrite(s: Section, after: Section, n: nat)
    requires Rotates(s, after, n)
    ensures "result.xml" !in after.files && "check.log" !in after.files
    ensures forall g, t :: g in after.groups && t in after.groups[g] && HasDot(t) ==> !IsFailure(Rest(t))
  {
    NamesApart(n, n);
    forall g, t | g in after.groups && t in after.groups[g] && HasDot(t)
      ensures !IsFailure(Rest(t))
    {
      NoFailureLeft(s.groups[g], after.groups[g], n, t);
    }
  }

  lemma NoFailureLeft(before: Dir, after: Dir, n: nat, t: string)
    requires IsRenaming(before, after, n) && t in after && HasDot(t)
    ensures !IsFailure(Rest(t))
  {
    var name := RenamedBack(before, after, n, t);
    if IsFailure(Rest(t)) {
      FailureIsNotNumbered(Rest(t));
      if Moves(before, name) {
        NumberStarts(name, n);
        assert false;
      } else {
        assert Failing(before, Base(t));
      }
    }
  }

  lemma NumberStarts(name: string, n: nat)
    ensures Rest(Target(name, n)) != "" && IsDigit(Rest(Target(name, n))[0])
  {
    TargetParts(name, n);
    assert Rest(Target(name, n))[0] == Pad4(n)[0];
  }

  lemma FailureIsNotNumbered(rest: string)
    requires IsFailure(rest)
    ensures rest != "" && !IsDigit(rest[0]) && !IsRotated(rest)
  {
    RotatedStartsWithDigit(rest);
  }

  lemma RotatedStartsWithDigit(rest: string)
    ensures IsRotated(rest) ==> rest != "" && IsDigit(rest[0])
  {
  }

  // ----- the whole run ------------------------------------------------------------

  /** The highest index in use before render `i`: each earlier render that found a result
      took one. */
  function Used(before: seq<Section>, m: nat, i: nat): nat
    requires i <= |before|
  {
    if i == 0 then m else Used(before, m, i - 1) + if "result.xml" in before[i - 1].files then 1 else 0
  }

  /** before[i] --render--> between[i] --test run--> before[i + 1]. */
  ghost predicate IsRun(before: seq<Section>, between: seq<Section>, m: nat)
    requires |before| == |between| + 1
  {
    && Indexed(before[0], m)
    && forall i :: 0 <= i < |between| ==> CycleAt(before, between, m, i)
  }

  ghost predicate CycleAt(before: seq<Section>, between: seq<Section>, m: nat, i: nat)
    requires |before| == |between| + 1 && i < |between|
  {
    Renders(before[i], between[i], Used(before, m, i) + 1) && TestRun(between[i], before[i + 1])
  }

  lemma RenderIndexed(s: Section, mid: Section, next: Section, m: nat)
    requires Indexed(s, m) && Renders(s, mid, m + 1) && TestRun(mid, next)
    ensures Indexed(next, if "result.xml" in s.files then m + 1 else m)
  {
    if "result.xml" in s.files {
      RotationSafe(s, mid, m, m + 1);
      TestRunIndexed(mid, next, m + 1);
    } else {
      TestRunIndexed(mid, next, m);
    }
  }

  /** Over any number of renders and test runs the indices in use stay exactly 1..m, and m
      grows by one with each render that finds a result. */
  lemma {:induction false} RunIndexed(before: seq<Section>, between: seq<Section>, m: nat, k: nat)
    requires |before| == |between| + 1 && IsRun(before, between, m) && k <= |between|
    ensures Indexed(before[k], Used(before, m, k))
  {
    hide Indexed, Renders, TestRun;
    if k > 0 {
      RunIndexed(before, between, m, k - 1);
      assert CycleAt(before, between, m, k - 1);
      RenderIndexed(before[k - 1], between[k - 1], before[k], Used(before, m, k - 1));
    }
  }

  lemma CycleSafe(before: seq<Section>, between: seq<Section>, m: nat, i: nat)
    requires |before| == |between| + 1 && IsRun(before, between, m) && i < |between|
    ensures Renders(before[i], between[i], Used(before, m, i) + 1) && TestRun(between[i], before[i + 1])
    ensures Indexed(before[i], Used(before, m, i))
  {
    RunIndexed(before, between, m, i);
    assert CycleAt(before, between, m, i);
  }

  /** The indices a run uses are forced: each rotation takes the next one. */
  lemma RunTakesNextIndex(before: seq<Section>, between: seq<Section>, m: nat, next: Section, n: nat)
    requires |before| == |between| + 1 && IsRun(before, between, m) && Rotates(before[|between|], next, n)
    ensures n == Used(before, m, |between|) + 1
  {
    RunIndexed(before, between, m, |between|);
    FirstFreeIsNext(before[|between|], Used(before, m, |between|), n);
  }

  lemma WhereResultsGo(n: nat, j: nat)
    ensures ResultMove(n, "result.xml") == ResultName(n) && ResultMove(n, "check.log") == LogName(n)
    ensures ResultMove(n, ResultName(j)) == ResultName(j) && ResultMove(n, LogName(j)) == LogName(j)
    ensures IsArchived(ResultName(j)) && IsArchived(LogName(j))
  {
    NamesApart(j, j);
    assert "result.xml" != "check.log" by { assert "result.xml"[0] != "check.log"[0]; }
  }

  /** One cycle: a result or a log arrives under its archived name and is left there. */
  lemma FileSurvivesCycle(s: Section, mid: Section, next: Section, n: nat, name: string)
    requires Rotates(s, mid, n) && TestRun(mid, next) && ResultsKept(s.files, n)
    requires name in s.files && IsArchived(ResultMove(n, name))
    ensures Get(next.files, ResultMove(n, name)) == Some(s.files[name])
  {
  }

  lemma ResultsArrive(s: Section, mid: Section, next: Section, m: nat)
    requires Indexed(s, m) && Rotates(s, mid, m + 1) && TestRun(mid, next)
    ensures Get(next.files, ResultName(m + 1)) == Get(s.files, "result.xml")
    ensures "check.log" in s.files ==> Get(next.files, LogName(m + 1)) == Get(s.files, "check.log")
  {
    RotationSafe(s, mid, m, m + 1);
    WhereResultsGo(m + 1, m + 1);
    FileSurvivesCycle(s, mid, next, m + 1, "result.xml");
    if "check.log" in s.files {
      FileSurvivesCycle(s, mid, next, m + 1, "check.log");
    }
  }

  lemma ArchivedStays(s: Section, next: Section, name: string)
    requires TestRun(s, next) && IsArchived(name)
    ensures Get(next.files, name) == Get(s.files, name)
  {
  }

  lemma ResultsStay(s: Section, mid: Section, next: Section, m: nat, j: nat)
    requires Indexed(s, m) && Renders(s, mid, m + 1) && TestRun(mid, next)
    ensures ResultName(j) in s.files ==> Get(next.files, ResultName(j)) == Get(s.files, ResultName(j))
    ensures LogName(j) in s.files ==> Get(next.files, LogName(j)) == Get(s.files, LogName(j))
  {
    hide Indexed, TestRun, Rotates, IsArchived, ResultName, LogName, ResultsKept, ResultMove;
    WhereResultsGo(m + 1, j);
    if "result.xml" in s.files {
      RotationSafe(s, mid, m, m + 1);
      if ResultName(j) in s.files {
        FileSurvivesCycle(s, mid, next, m + 1, ResultName(j));
      }
      if LogName(j) in s.files {
        FileSurvivesCycle(s, mid, next, m + 1, LogName(j));
      }
    } else {
      ArchivedStays(s, next, ResultName(j));
      ArchivedStays(s, next, LogName(j));
    }
  }

  lemma IndexedHas(s: Section, m: nat, j: nat)
    requires Indexed(s, m) && 1 <= j <= m
    ensures ResultName(j) in s.files
  {
  }

  lemma RenderRotates(s: Section, mid: Section, n: nat)
    requires Renders(s, mid, n) && "result.xml" in s.files
    ensures Rotates(s, mid, n)
  {
  }

  lemma ResultsArriveAt(before: seq<Section>, between: seq<Section>, m: nat, i: nat)
    requires |before| == |between| + 1 && IsRun(before, between, m) && i < |between| && "result.xml" in before[i].files
    ensures var n := Used(before, m, i) + 1;
            && Get(before[i + 1].files, ResultName(n)) == Get(before[i].files, "result.xml")
            && ("check.log" in before[i].files ==>
                  Get(before[i + 1].files, LogName(n)) == Get(before[i].files, "check.log"))
  {
    hide *;
    CycleSafe(before, between, m, i);
    RenderRotates(before[i], between[i], Used(before, m, i) + 1);
    ResultsArrive(before[i], between[i], before[i + 1], Used(before, m, i));
  }

  lemma ResultsStayAt(before: seq<Section>, between: seq<Section>, m: nat, i: nat, j: nat)
    requires |before| == |between| + 1 && IsRun(before, between, m) && i < |between| && 1 <= j <= Used(before, m, i)
    ensures Get(before[i + 1].files, ResultName(j)) == Get(before[i].files, ResultName(j))
    ensures LogName(j) in before[i].files ==> Get(before[i + 1].files, LogName(j)) == Get(before[i].files, LogName(j))
  {
    hide *;
    CycleSafe(before, between, m, i);
    IndexedHas(before[i], Used(before, m, i), j);
    ResultsStay(before[i], between[i], before[i + 1], Used(before, m, i), j);
  }

  lemma {:induction false} UsedGrows(before: seq<Section>, m: nat, i: nat, k: nat)
    requires i < k <= |before| && "result.xml" in before[i].files
    ensures Used(before, m, i) < Used(before, m, k)
    decreases k
  {
    if i + 1 < k {
      UsedGrows(before, m, i, k - 1);
    }
  }

  /** The result and the log that a render finds are still there at the end, under the index
      it gave them. */
  lemma {:induction false} EveryResultKept(before: seq<Section>, between: seq<Section>, m: nat, i: nat, k: nat)
    requires |before| == |between| + 1 && IsRun(before, between, m) && i < k <= |between|
    requires "result.xml" in before[i].files
    ensures var n := Used(before, m, i) + 1;
            && Get(before[k].files, ResultName(n)) == Get(before[i].files, "result.xml")
            && ("check.log" in before[i].files ==>
                  Get(before[k].files, LogName(n)) == Get(before[i].files, "check.log"))
    decreases k
  {
    hide IsRun, ResultName, LogName, Used;
    if k == i + 1 {
      ResultsArriveAt(before, between, m, i);
    } else {
      EveryResultKept(before, between, m, i, k - 1);
      UsedGrows(before, m, i, k - 1);
      ResultsStayAt(before, between, m, k - 1, Used(before, m, i) + 1);
    }
  }

  /** One cycle: a numbered artifact survives it with its content, still numbered. */
  lemma ArtifactSurvivesCycle(s: Section, mid: Section, next: Section, n: nat, g: string, name: string)
    requires Rotates(s, mid, n) && TestRun(mid, next)
    requires g in s.groups && name in s.groups[g] && IsNumberedArtifact(name)
    ensures var name' := NewName(s.groups[g], n, name);
            IsNumberedArtifact(name') && Get(Group(next, g), name') == Some(s.groups[g][name])
  {
    StaysNumbered(s.groups[g], mid.groups[g], n, name);
    var name' := NewName(s.groups[g], n, name);
    assert Get(Group(next, g), name') == Get(Group(mid, g), name');
  }

  /** A numbered artifact of a group, with its content. */
  ghost predicate Archive(s: Section, g: string, name: string, content: Content) {
    g in s.groups && name in s.groups[g] && s.groups[g][name] == content && IsNumberedArtifact(name)
  }

  /** Two artifacts under distinct names. */
  ghost predicate Archives(s: Section, g: string, x: Content, y: Content) {
    exists a, b :: a != b && Archive(s, g, a, x) && Archive(s, g, b, y)
  }

  /** The name a render leaves a file under. */
  function NameAfter(s: Section, n: nat, g: string, name: string): string {
    if "result.xml" in s.files then NewName(Group(s, g), n, name) else name
  }

  lemma ArchiveSurvives(s: Section, mid: Section, next: Section, n: nat, g: string, name: string, x: Content)
    requires Renders(s, mid, n) && TestRun(mid, next) && Archive(s, g, name, x)
    ensures Archive(next, g, NameAfter(s, n, g, name), x)
  {
    if "result.xml" in s.files {
      ArtifactSurvivesCycle(s, mid, next, n, g, name);
    } else {
      assert Get(Group(next, g), name) == Get(Group(s, g), name);
    }
  }

  lemma NamesStayApart(s: Section, m: nat, g: string, a: string, b: string)
    requires Indexed(s, m) && a in Group(s, g) && b in Group(s, g) && a != b
    ensures NameAfter(s, m + 1, g, a) != NameAfter(s, m + 1, g, b)
  {
    GroupFree(s.groups[g], m);
    NewNamesDistinct(s.groups[g], m + 1, a, b);
  }

  lemma ArchiveInGroup(s: Section, g: string, name: string, x: Content)
    requires Archive(s, g, name, x)
    ensures name in Group(s, g)
  {
  }

  lemma ArtifactsSurviveAt(before: seq<Section>, between: seq<Section>, m: nat, i: nat, g: string, x: Content, y: Content)
    requires |before| == |between| + 1 && IsRun(before, between, m) && i < |between| && Archives(before[i], g, x, y)
    ensures Archives(before[i + 1], g, x, y)
  {
    hide Archive, NameAfter, Group, IsRun, Renders, TestRun, Indexed, Used;
    var a, b :| a != b && Archive(before[i], g, a, x) && Archive(before[i], g, b, y);
    var m' := Used(before, m, i);
    CycleSafe(before, between, m, i);
    ArchiveInGroup(before[i], g, a, x);
    ArchiveInGroup(before[i], g, b, y);
    NamesStayApart(before[i], m', g, a, b);
    ArchiveSurvives(before[i], between[i], before[i + 1], m' + 1, g, a, x);
    ArchiveSurvives(before[i], between[i], before[i + 1], m' + 1, g, b, y);
  }

  /** Any two archived artifacts survive a run with their content, still numbered, and under
      distinct names. */
  lemma {:induction false} ArtifactsKept(before: seq<Section>, between: seq<Section>, m: nat, i: nat, k: nat, g: string,
                                         x: Content, y: Content)
    requires |before| == |between| + 1 && IsRun(before, between, m) && i <= k <= |between|
    requires Archives(before[i], g, x, y)
    ensures Archives(before[k], g, x, y)
    decreases k
  {
    hide *;
    if i < k {
      ArtifactsKept(before, between, m, i, k - 1, g, x, y);
      ArtifactsSurviveAt(before, between, m, k - 1, g, x, y);
    }
  }

  /** An artifact archived under some name. */
  ghost predicate Archived(s: Section, g: string, x: Content) {
    exists a :: Archive(s, g, a, x)
  }

  /** An artifact the render at `s` is to archive, with its content. */
  ghost predicate Fails(s: Section, g: string, name: string, x: Content) {
    "result.xml" in s.files && name in Group(s, g) && Group(s, g)[name] == x && Moves(Group(s, g), name)
  }

  lemma FailureArrives(s: Section, mid: Section, next: Section, n: nat, g: string, name: string, x: Content)
    requires Renders(s, mid, n) && TestRun(mid, next) && Fails(s, g, name, x)
    ensures NameAfter(s, n, g, name) == Target(name, n)
    ensures Archive(next, g, Target(name, n), x)
  {
    FailureArtifactArchived(s, mid, n, g, name);
    assert Get(Group(next, g), Target(name, n)) == Get(Group(mid, g), Target(name, n));
  }

  lemma {:induction false} ArtifactKept(before: seq<Section>, between: seq<Section>, m: nat, i: nat, k: nat, g: string, x: Content)
    requires |before| == |between| + 1 && IsRun(before, between, m) && i <= k <= |between| && Archived(before[i], g, x)
    ensures Archived(before[k], g, x)
    decreases k
  {
    hide IsRun, Archive, Used, NameAfter;
    if i < k {
      ArtifactKept(before, between, m, i, k - 1, g, x);
      var a :| Archive(before[k - 1], g, a, x);
      CycleSafe(before, between, m, k - 1);
      ArchiveSurvives(before[k - 1], between[k - 1], before[k], Used(before, m, k - 1) + 1, g, a, x);
    }
  }

  /** Every failure artifact any render of a run finds is archived at the end, with its
      content. */
  lemma EveryArtifactKept(before: seq<Section>, between: seq<Section>, m: nat, i: nat, k: nat, g: string,
                          name: string, x: Content)
    requires |before| == |between| + 1 && IsRun(before, between, m) && i < k <= |between|
    requires Fails(before[i], g, name, x)
    ensures Archived(before[k], g, x)
  {
    hide IsRun, Archive, Used, Renders, TestRun, Indexed, Fails, Target, NameAfter;
    CycleSafe(before, between, m, i);
    FailureArrives(before[i], between[i], before[i + 1], Used(before, m, i) + 1, g, name, x);
    ArtifactKept(before, between, m, i + 1, k, g, x);
  }

  lemma BothArrive(s: Section, mid: Section, next: Section, m: nat, g: string, a: string, b: string, x: Content, y: Content)
    requires Indexed(s, m) && Renders(s, mid, m + 1) && TestRun(mid, next)
    requires Fails(s, g, a, x) && Fails(s, g, b, y) && a != b
    ensures Archives(next, g, x, y)
  {
    FailureArrives(s, mid, next, m + 1, g, a, x);
    FailureArrives(s, mid, next, m + 1, g, b, y);
    NamesStayApart(s, m, g, a, b);
  }

  lemma ArrivesBeside(s: Section, mid: Section, next: Section, m: nat, g: string, x: Content, b: string, y: Content)
    requires Indexed(s, m) && Renders(s, mid, m + 1) && TestRun(mid, next)
    requires Archived(s, g, x) && Fails(s, g, b, y) && !IsNumberedArtifact(b)
    ensures Archives(next, g, x, y)
  {
    var a :| Archive(s, g, a, x);
    ArchiveSurvives(s, mid, next, m + 1, g, a, x);
    FailureArrives(s, mid, next, m + 1, g, b, y);
    NamesStayApart(s, m, g, a, b);
  }

  lemma BothArriveAt(before: seq<Section>, between: seq<Section>, m: nat, j: nat, g: string,
                     a: string, b: string, x: Content, y: Content)
    requires |before| == |between| + 1 && IsRun(before, between, m) && j < |between|
    requires Fails(before[j], g, a, x) && Fails(before[j], g, b, y) && a != b
    ensures Archives(before[j + 1], g, x, y)
  {
    hide *;
    CycleSafe(before, between, m, j);
    BothArrive(before[j], between[j], before[j + 1], Used(before, m, j), g, a, b, x, y);
  }

  lemma ArrivesBesideAt(before: seq<Section>, between: seq<Section>, m: nat, j: nat, g: string, x: Content, b: string, y: Content)
    requires |before| == |between| + 1 && IsRun(before, between, m) && j < |between|
    requires Archived(before[j], g, x) && Fails(before[j], g, b, y) && !IsNumberedArtifact(b)
    ensures Archives(before[j + 1], g, x, y)
  {
    hide *;
    CycleSafe(before, between, m, j);
    ArrivesBeside(before[j], between[j], before[j + 1], Used(before, m, j), g, x, b, y);
  }

  /** Two of them, found by one render or by two, end under distinct names. Found by two, the
      later one is a new file and not the earlier one, archived, found again. */
  lemma ArtifactsStayApart(before: seq<Section>, between: seq<Section>, m: nat, i: nat, j: nat, k: nat, g: string,
                           a: string, b: string, x: Content, y: Content)
    requires |before| == |between| + 1 && IsRun(before, between, m) && i <= j < k <= |between|
    requires Fails(before[i], g, a, x) && Fails(before[j], g, b, y)
    requires if i == j then a != b else !IsNumberedArtifact(b)
    ensures Archives(before[k], g, x, y)
  {
    hide *;
    if i < j {
      EveryArtifactKept(before, between, m, i, j, g, a, x);
      ArrivesBesideAt(before, between, m, j, g, x, b, y);
    } else {
      BothArriveAt(before, between, m, j, g, a, b, x, y);
    }
    ArtifactsKept(before, between, m, j + 1, k, g, x, y);
  }

  /** A render archives what it is to archive exactly when the section has a result... */
  lemma RenderArchivesExactly(s: Section, mid: Section, m: nat, g: string, name: string)
    requires Indexed(s, m) && Renders(s, mid, m + 1)
    requires name in Group(s, g) && Moves(Group(s, g), name)
    ensures Archive(mid, g, Target(name, m + 1), Group(s, g)[name]) <==> "result.xml" in s.files
  {
    if "result.xml" in s.files {
      FailureArtifactArchived(s, mid, m + 1, g, name);
    } else {
      GroupFree(s.groups[g], m);
      TargetUnused(s.groups[g], m + 1, name);
    }
  }

  /** ...so the artifact of a run cut short before it wrote one is lost as soon as the next
      run writes its own. */
  lemma UnrotatedIsLost(s: Section, g: string, name: string, y: Content, n: nat)
    requires "result.xml" !in s.files && name in Group(s, g) && !IsNumberedArtifact(name)
    requires forall other :: other in Group(s, g) && other != name ==> Group(s, g)[other] != Group(s, g)[name]
    requires y != Group(s, g)[name]
    ensures var next := s.(groups := s.groups[g := Group(s, g)[name := y]]);
            && Renders(s, s, n) && TestRun(s, next)
            && forall other :: other in Group(next, g) ==> Group(next, g)[other] != Group(s, g)[name]
  {
  }

  lemma TargetCarries(name: string, n: nat)
    ensures Carries(Target(name, n), n) && IsNumberedArtifact(Target(name, n))
  {
    TargetParts(name, n);
    assert Carries(Target(name, n), n);
  }

  lemma StaysNumbered(files: Dir, after: Dir, n: nat, name: string)
    requires IsRenaming(files, after, n) && name in files && IsNumberedArtifact(name)
    ensures IsNumberedArtifact(NewName(files, n, name)) && Get(after, NewName(files, n, name)) == Some(files[name])
  {
    RenamedForward(files, after, n, name);
    if NewName(files, n, name) != name {
      TargetCarries(name, n);
    }
  }

  /** A failure artifact a rotation is to move is archived by it, under its index. */
  lemma FailureArtifactArchived(s: Section, after: Section, n: nat, g: string, name: string)
    requires Rotates(s, after, n) && name in Group(s, g) && Moves(Group(s, g), name)
    ensures Get(Group(after, g), Target(name, n)) == Some(Group(s, g)[name])
    ensures IsNumberedArtifact(Target(name, n))
  {
    assert NewName(s.groups[g], n, name) == Target(name, n);
    RenamedForward(s.groups[g], after.groups[g], n, name);
    TargetCarries(name, n);
  }

  // ----- rotated files that move again --------------------------------------------

  /** What follows the index. */
  function Suffix(rest: string, k: nat): string
    requires Numbered(rest, k)
  {
    rest[|Pad4(k)| + 1..]
  }

  lemma RotatedBySuffix(rest: string, k: nat)
    requires Numbered(rest, k)
    ensures IsRotated(rest) <==> Listed(Suffix(rest, k))
    ensures !("core." <= rest)
  {
    var p := Pad4(k);
    assert rest == p + "." + Suffix(rest, k);
    FirstDotAt(p, Suffix(rest, k));
    assert rest[..|p|] == p;
    assert IsDigit(rest[0]) && !IsDigit("core."[0]);
  }

  lemma TargetLonger(name: string, n: nat)
    requires HasDot(name)
    ensures Target(name, n) != name
  {
    assert |Target(name, n)| == |name| + |Pad4(n)| + 1;
  }

  /** An archived file stays in place exactly when its suffix is one the rotation knows, or
      nothing of its test failed again. */
  lemma ArchivedStaysExactly(files: Dir, n: nat, name: string, k: nat)
    requires name in files && Carries(name, k)
    ensures NewName(files, n, name) == name <==> Listed(Suffix(Rest(name), k)) || !Failing(files, Base(name))
  {
    RotatedBySuffix(Rest(name), k);
    TargetLonger(name, n);
  }

  /** The account that already-rotated files are left in place is too strong: the skip note
      of a test that failed in two runs is renamed by both. */
  lemma SkipNoteMovesAgain(files: Dir, n: nat)
    requires files.Keys == {"001.0001.notrun", "001.out.bad"}
    ensures Carries("001.0001.notrun", 1) && NewName(files, n, "001.0001.notrun") != "001.0001.notrun"
  {
    SkipNote("001.0001.notrun");
    FailureFile(files, "001.out.bad");
    ArchivedStaysExactly(files, n, "001.0001.notrun", 1);
  }

  lemma SkipNote(note: string)
    requires note == "001.0001.notrun"
    ensures Carries(note, 1) && Base(note) == "001" && !Listed(Suffix(Rest(note), 1))
  {
    Parts("001", "0001.notrun", note);
    PadOne();
    var suffix := Suffix("0001.notrun", 1);
    assert suffix == "notrun" && |suffix| == 6 && suffix[0] == 'n';
    assert !Listed(suffix);
  }

  lemma FailureFile(files: Dir, bad: string)
    requires bad == "001.out.bad" && bad in files
    ensures Failing(files, "001")
  {
    Parts("001", "out.bad", bad);
    Parts("out", "bad", "out.bad");
    assert "out.bad"[..3] == "out" && !IsDigit("out"[0]);
    assert Considered(bad) && IsFailure(Rest(bad));
  }

  lemma Parts(base: string, rest: string, name: string)
    requires name == base + "." + rest && forall i :: 0 <= i < |base| ==> base[i] != '.'
    ensures HasDot(name) && Base(name) == base && Rest(name) == rest && FirstDot(name) == |base|
  {
    FirstDotAt(base, rest);
  }

  lemma PadOne()
    ensures Pad4(1) == "0001"
  {
    assert Decimal(1) == "1";
    assert Repeat('0', 3) == "000";
  }
}
