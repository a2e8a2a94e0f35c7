/** Keeping a prior run's results: `_rotate_results` and `_rotate_failure_artifacts` of
    f/fstests/render_config.py. A rename that meets an existing file replaces it. */
module Rotation {
  import opened Wrappers
  import opened Text
  import opened Numbering
  import opened Renaming

  type Content = string

  type Dir = map<string, Content>

  // ----- the run-global results ---------------------------------------------------

  function ResultName(n: nat): string { "result." + Pad4(n) + ".xml" }
  function LogName(n: nat): string { "check." + Pad4(n) + ".log" }

  lemma NamesApart(m: nat, n: nat)
    ensures ResultName(m) == ResultName(n) ==> m == n
    ensures LogName(m) == LogName(n) ==> m == n
    ensures ResultName(m) != LogName(n)
    ensures ResultName(m) != "result.xml" && LogName(m) != "check.log"
    ensures ResultName(m) != "check.log" && LogName(m) != "result.xml"
  {
    var a, b := Pad4(m), Pad4(n);
    assert ResultName(m)[0] == 'r' && LogName(n)[0] == 'c';
    assert ResultName(m)[7..|ResultName(m)| - 4] == a && ResultName(n)[7..|ResultName(n)| - 4] == b;
    assert LogName(m)[6..|LogName(m)| - 4] == a && LogName(n)[6..|LogName(n)| - 4] == b;
    assert ResultName(m)[7] == a[0] && LogName(m)[6] == a[0] && LogName(m)[0] == 'c';
    if a == b {
      Pad4Injective(m, n);
    }
  }

  predicate IsFirstFree(files: Dir, n: nat) {
    n >= 1 && ResultName(n) !in files && forall k :: 1 <= k < n ==> ResultName(k) in files
  }

  function ResultMove(n: nat, name: string): string {
    if name == "result.xml" then ResultName(n) else if name == "check.log" then LogName(n) else name
  }

  function RotatedResults(files: Dir, n: nat): Dir
    requires "result.xml" in files
  {
    var moved := Rename(files, "result.xml", ResultName(n));
    if "check.log" in moved then Rename(moved, "check.log", LogName(n)) else moved
  }

  ghost predicate ResultsKept(files: Dir, n: nat)
    requires "result.xml" in files
  {
    && (forall name :: name in files ==> Get(RotatedResults(files, n), ResultMove(n, name)) == Some(files[name]))
    && (forall a, b :: a in files && b in files && a != b ==> ResultMove(n, a) != ResultMove(n, b))
  }

  /** At a free index nothing is overwritten, except an old log that has lost its result. */
  lemma RotateResultsKeepsExactly(files: Dir, n: nat)
    requires "result.xml" in files && IsFirstFree(files, n)
    ensures ResultsKept(files, n) <==> !("check.log" in files && LogName(n) in files)
  {
    NamesApart(n, n);
    var after := RotatedResults(files, n);
    if "check.log" in files && LogName(n) in files {
      assert ResultMove(n, LogName(n)) == LogName(n) == ResultMove(n, "check.log");
    } else {
      forall name | name in files
        ensures Get(after, ResultMove(n, name)) == Some(files[name])
      {
      }
    }
  }

  /** Such a log is gone: no file has its content any more. */
  lemma LogWithoutResultIsLost(result: Content, log: Content, archived: Content)
    requires archived != result && archived != log
    ensures var files := map["result.xml" := result, "check.log" := log, LogName(1) := archived];
            && IsFirstFree(files, 1)
            && forall name :: name in RotatedResults(files, 1) ==> RotatedResults(files, 1)[name] != archived
  {
    NamesApart(1, 1);
    var files := map["result.xml" := result, "check.log" := log, LogName(1) := archived];
    assert Get(RotatedResults(files, 1), LogName(1)) == Some(log);
  }

  // ----- the per-test failure artifacts -------------------------------------------

  predicate HasDot(name: string) {
    FirstDot(name) < |name|
  }

  function Base(name: string): string {
    name[..FirstDot(name)]
  }

  function Rest(name: string): string {
    if HasDot(name) then name[FirstDot(name) + 1..] else ""
  }

  predicate IsCore(rest: string) {
    "core." <= rest && |rest| > 5
  }

  predicate IsFailure(rest: string) {
    rest == "out.bad" || rest == "dmesg" || rest == "hints" || IsCore(rest)
  }

  /** The suffixes a rotated file is recognised by. */
  predicate Listed(suffix: string) {
    IsFailure(suffix) || suffix == "full" || suffix == "fsxgood" || suffix == "fsxlog"
  }

  predicate IsRotated(rest: string) {
    var d := FirstDot(rest);
    d < |rest| && AllDigits(rest[..d]) && Listed(rest[d + 1..])
  }

  predicate Considered(name: string) {
    HasDot(name) && !IsRotated(Rest(name))
  }

  predicate Failing(files: Dir, base: string) {
    exists name :: name in files && Considered(name) && Base(name) == base && IsFailure(Rest(name))
  }

  predicate Moves(files: Dir, name: string) {
    Considered(name) && (Failing(files, Base(name)) || "core." <= Rest(name))
  }

  function Target(name: string, n: nat): string {
    Base(name) + "." + (Pad4(n) + "." + Rest(name))
  }

  function NewName(files: Dir, n: nat, name: string): string {
    if Moves(files, name) then Target(name, n) else name
  }

  lemma TargetParts(name: string, n: nat)
    ensures HasDot(Target(name, n)) && Base(Target(name, n)) == Base(name)
    ensures Rest(Target(name, n)) == Pad4(n) + "." + Rest(name) && Numbered(Rest(Target(name, n)), n)
  {
    FirstDotAt(Base(name), Pad4(n) + "." + Rest(name));
  }

  /** No file of the directory carries the index yet. */
  predicate Free(files: Dir, n: nat) {
    forall name :: name in files && HasDot(name) ==> !Numbered(Rest(name), n)
  }

  lemma TargetInjective(a: string, b: string, n: nat)
    requires HasDot(a) && HasDot(b) && Target(a, n) == Target(b, n)
    ensures a == b
  {
    TargetParts(a, n);
    TargetParts(b, n);
    AfterPrefix(Pad4(n) + ".", Rest(a), Rest(b));
    Reassembled(a);
    Reassembled(b);
  }

  lemma AfterPrefix(p: string, x: string, y: string)
    requires p + x == p + y
    ensures x == y
  {
    assert (p + x)[|p|..] == x && (p + y)[|p|..] == y;
  }

  lemma Reassembled(name: string)
    requires HasDot(name)
    ensures name == Base(name) + "." + Rest(name)
  {
  }

  /** At a free index no target exists yet, and no two files share one. */
  lemma NewNamesDistinct(files: Dir, n: nat, a: string, b: string)
    requires Free(files, n) && a in files && b in files && a != b
    ensures NewName(files, n, a) != NewName(files, n, b)
  {
    TargetUnused(files, n, a);
    TargetUnused(files, n, b);
    if Moves(files, a) && Moves(files, b) && Target(a, n) == Target(b, n) {
      TargetInjective(a, b, n);
    }
  }

  lemma TargetUnused(files: Dir, n: nat, name: string)
    requires Free(files, n)
    ensures Target(name, n) !in files
  {
    TargetParts(name, n);
  }

  /** The whole renaming of one directory as a map from old names to new ones. */
  ghost function MoveMap(files: Dir, n: nat): (move: map<string, string>)
    ensures move.Keys == files.Keys
  {
    map name | name in files :: NewName(files, n, name)
  }

  ghost predicate IsRenaming(before: Dir, after: Dir, n: nat) {
    PartRenamed(before, after, MoveMap(before, n), {})
  }

  lemma MoveMapSafe(files: Dir, n: nat)
    requires Free(files, n)
    ensures Safe(files, MoveMap(files, n))
  {
    var move := MoveMap(files, n);
    forall a, b | a in move && b in move && a != b
      ensures move[a] != move[b]
    {
      NewNamesDistinct(files, n, a, b);
    }
    forall a | a in move && move[a] != a
      ensures move[a] !in files
    {
      TargetUnused(files, n, a);
    }
  }

  /** The files to rename, those still to be looked at left aside. */
  ghost function Moved(files: Dir, todo: set<string>): set<string> {
    set name | name in files && name !in todo && Moves(files, name)
  }

  lemma OneMoved(files: Dir, todo: set<string>, name: string)
    requires name in todo && name in files
    ensures |Moved(files, todo - {name})| == |Moved(files, todo)| + if Moves(files, name) then 1 else 0
  {
    assert Moved(files, todo - {name}) == Moved(files, todo) + if Moves(files, name) then {name} else {};
  }

  /** The same over all groups, those still to be looked at left aside. */
  ghost function AllMoved(groups: map<string, Dir>, todo: set<string>): set<(string, string)> {
    set g, name | g in groups && g !in todo && name in groups[g] && Moves(groups[g], name) :: (g, name)
  }

  lemma {:induction false} Labelled(g: string, names: set<string>)
    ensures |set name | name in names :: (g, name)| == |names|
    decreases |names|
  {
    var pairs := set name | name in names :: (g, name);
    if names != {} {
      var name :| name in names;
      var rest := set n | n in names - {name} :: (g, n);
      Labelled(g, names - {name});
      assert pairs == rest + {(g, name)};
    }
  }

  lemma GroupMoved(groups: map<string, Dir>, todo: set<string>, g: string)
    requires g in todo && g in groups
    ensures |AllMoved(groups, todo - {g})| == |AllMoved(groups, todo)| + |Moved(groups[g], {})|
  {
    hide Moves;
    var names := Moved(groups[g], {});
    var pairs := set name | name in names :: (g, name);
    Labelled(g, names);
    assert AllMoved(groups, todo - {g}) == AllMoved(groups, todo) + pairs;
    assert AllMoved(groups, todo) !! pairs;
  }

  /** Whichever way a file goes, the directory is renamed one file further. */
  lemma OneFile(before: Dir, now: Dir, n: nat, todo: set<string>, name: string)
    requires Free(before, n) && PartRenamed(before, now, MoveMap(before, n), todo)
    requires name in todo && name in before
    ensures Moves(before, name) ==>
              name in now && PartRenamed(before, Rename(now, name, Target(name, n)), MoveMap(before, n), todo - {name})
    ensures !Moves(before, name) ==> PartRenamed(before, now, MoveMap(before, n), todo - {name})
  {
    MoveMapSafe(before, n);
    TargetUnused(before, n, name);
    if Moves(before, name) {
      RenameOne(before, now, MoveMap(before, n), todo, name);
    } else {
      KeepOne(before, now, MoveMap(before, n), todo, name);
    }
  }

  datatype Section = Section(files: Dir, groups: map<string, Dir>)

  /** The directory of one section, on disk. */
  class SectionDir {
    var files: Dir
    var groups: map<string, Dir>

    constructor (files: Dir, groups: map<string, Dir>)
      ensures this.files == files && this.groups == groups
    {
      this.files, this.groups := files, groups;
    }

    /** `_rotate_results`. The search for a free index ends because distinct indices have
        distinct names and the directory is finite. */
    method RotateResults() returns (kept: Option<nat>)
      modifies this`files
      ensures kept.None? <==> "result.xml" !in old(files)
      ensures kept.None? ==> files == old(files)
      ensures kept.Some? ==> IsFirstFree(old(files), kept.value) && files == RotatedResults(old(files), kept.value)
    {
      if "result.xml" !in files {
        return None;
      }
      var n := 1;
      ghost var unseen := files.Keys;
      while ResultName(n) in files
        invariant n >= 1
        invariant forall k :: 1 <= k < n ==> ResultName(k) in files
        invariant forall k :: k >= n && ResultName(k) in files ==> ResultName(k) in unseen
        decreases |unseen|
      {
        unseen := unseen - {ResultName(n)};
        forall k | k >= n + 1 && ResultName(k) in files
          ensures ResultName(k) in unseen
        {
          NamesApart(k, n);
        }
        n := n + 1;
      }
      NamesApart(n, n);
      files := Rename(files, "result.xml", ResultName(n));
      if "check.log" in files {
        files := Rename(files, "check.log", LogName(n));
      }
      return Some(n);
    }

    static method FailingBases(files: Dir) returns (failing: set<string>)
      ensures forall b :: b in failing <==> Failing(files, b)
    {
      failing := {};
      var scan := files.Keys;
      ghost var seen := {};
      while scan != {}
        invariant seen + scan == files.Keys && seen !! scan
        invariant forall b :: b in failing <==>
                    exists name :: name in seen && Considered(name) && Base(name) == b && IsFailure(Rest(name))
        decreases scan
      {
        var name :| name in scan;
        if Considered(name) && IsFailure(Rest(name)) {
          failing := failing + {Base(name)};
        }
        scan, seen := scan - {name}, seen + {name};
      }
    }

    /** One group directory of `_rotate_failure_artifacts`, renaming one file at a time. */
    static method RotateGroup(before: Dir, n: nat) returns (after: Dir, count: nat)
      requires Free(before, n)
      ensures IsRenaming(before, after, n)
      ensures count == |Moved(before, {})|
    {
      var failing := FailingBases(before);
      after, count := before, 0;
      var todo := before.Keys;
      NothingRenamedYet(before, MoveMap(before, n));
      while todo != {}
        invariant todo <= before.Keys
        invariant PartRenamed(before, after, MoveMap(before, n), todo)
        invariant count == |Moved(before, todo)|
        decreases todo
      {
        var name :| name in todo;
        OneFile(before, after, n, todo, name);
        OneMoved(before, todo, name);
        if Considered(name) && (Base(name) in failing || "core." <= Rest(name)) {
          after := Rename(after, name, Target(name, n));
          count := count + 1;
        }
        todo := todo - {name};
      }
    }

    method RotateFailureArtifacts(n: nat) returns (count: nat)
      requires forall g :: g in groups ==> Free(groups[g], n)
      modifies this`groups
      ensures GroupsRenamed(old(groups), groups, n, {})
      ensures count == |AllMoved(old(groups), {})|
    {
      count := 0;
      var todo := groups.Keys;
      while todo != {}
        invariant todo <= old(groups).Keys
        invariant GroupsRenamed(old(groups), groups, n, todo)
        invariant count == |AllMoved(old(groups), todo)|
        decreases todo
      {
        var g :| g in todo;
        GroupMoved(old(groups), todo, g);
        var after, moved := RotateGroup(groups[g], n);
        groups := groups[g := after];
        count := count + moved;
        todo := todo - {g};
      }
    }
  }

  ghost predicate GroupsRenamed(before: map<string, Dir>, now: map<string, Dir>, n: nat, todo: set<string>) {
    && before.Keys == now.Keys
    && forall g :: g in before ==> if g in todo then now[g] == before[g] else IsRenaming(before[g], now[g], n)
  }
}
