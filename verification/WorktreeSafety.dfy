/** What `_sync` never does to a developer: the safety and the contract of the sync, for
    one call and over whole runs. */
module WorktreeSafety {
  import opened Wrappers
  import opened History
  import opened Worktree

  /** The things a developer could lose. A staged file is kept when it is still staged or
      has meanwhile been recorded by a live commit: a fast-forward may reach a commit that has
      what was staged, and two trees may share an unborn branch whose birth in one of them
      commits what the other had staged. */
  datatype Thing =
    | LiveCommit(commit: Commit)
    | RefAt(ref: string, commit: Commit)
    | StagedFile(path: Path, file: File, staged: Option<Content>)
    | ModifiedFile(path: Path, file: File, onDisk: Option<Content>)
    | UntrackedFile(path: Path, file: File, content: Content)

  ghost predicate Holds(repo: Repo, t: Thing)
    requires repo.Valid()
  {
    match t
    case LiveCommit(c) => c in repo.Live()
    case RefAt(r, c) => Get(repo.refs, r) == Some(c)
    case StagedFile(p, f, x) =>
      (p in repo.sites && HoldsAt(repo, repo.sites[p], t)) || Recorded(repo, f, x)
    case ModifiedFile(p, f, x) => p in repo.sites && HoldsAt(repo, repo.sites[p], t)
    case UntrackedFile(p, f, x) => p in repo.sites && HoldsAt(repo, repo.sites[p], t)
  }

  /** A live commit has the file with this content, or deletes it: it lacks a file that a
      commit in its history has. */
  ghost predicate Recorded(repo: Repo, f: File, x: Option<Content>)
    requires repo.Valid()
  {
    exists c, a :: c in repo.Live() && RecordedBy(repo, f, x, c, a)
  }

  ghost predicate RecordedBy(repo: Repo, f: File, x: Option<Content>, c: Commit, a: Commit)
    requires repo.Valid()
  {
    && c < |repo.history| && a in Ancestors(repo.history, c)
    && Get(repo.snapshots[c], f) == x && (x.None? ==> f in repo.snapshots[a])
  }

  ghost predicate HoldsAt(repo: Repo, s: Site, t: Thing)
    requires repo.Valid()
  {
    match t
    case StagedFile(_, f, x) =>
      s.Checkout? && Staged(repo.Snapshot(repo.Tip(s.head)), s, f) && Get(s.index, f) == x
    case ModifiedFile(_, f, x) => s.Checkout? && Modified(s, f) && Get(s.work, f) == x
    case UntrackedFile(_, f, x) => s.Checkout? && Untracked(repo.ignored, s, f) && Get(s.work, f) == Some(x)
    case _ => false
  }

  // ----- the commands, one at a time ----------------------------------------------

  lemma TipsKept(before: Repo, after: Repo)
    requires before.Valid() && after.Valid() && before.history == after.history
    requires forall c :: c in before.Tips() ==> c in after.Live()
    ensures before.Live() <= after.Live()
  {
    ReachableGrows(before.history, before.Tips(), after.Tips());
  }

  lemma RecordedKept(before: Repo, after: Repo, f: File, x: Option<Content>)
    requires before.Valid() && after.Valid()
    requires before.history == after.history && before.snapshots == after.snapshots
    requires before.Live() <= after.Live() && Recorded(before, f, x)
    ensures Recorded(after, f, x)
  {
    var c, a :| c in before.Live() && RecordedBy(before, f, x, c, a);
    assert c in after.Live() && RecordedBy(after, f, x, c, a);
  }

  lemma TipIsLive(repo: Repo, c: Commit)
    requires repo.Valid() && c in repo.Tips()
    ensures c in repo.Live()
  {
    assert c in Ancestors(repo.history, c);
  }

  lemma AddKeeps(repo: Repo, path: Path, head: Head, permit: bool, t: Thing)
    requires repo.Valid() && (head.DetachedAt? ==> head.commit < |repo.history|)
    requires Holds(repo, t)
    ensures Holds(WorktreeAdd(repo, path, head, permit).1, t)
  {
    var after := WorktreeAdd(repo, path, head, permit).1;
    forall c | c in repo.Tips()
      ensures c in after.Live()
    {
      if r :| r in repo.refs && repo.refs[r] == c {
        assert after.refs[r] == c;
      } else {
        var p :| p in repo.sites && !repo.sites[p].Foreign? && repo.Tip(repo.sites[p].head) == Some(c);
        assert p in after.sites && after.sites[p] == repo.sites[p] && after.Tip(after.sites[p].head) == Some(c);
      }
      TipIsLive(after, c);
    }
    TipsKept(repo, after);
    if t.StagedFile? && Recorded(repo, t.file, t.staged) {
      RecordedKept(repo, after, t.file, t.staged);
    }
  }

  lemma EditIsDirty(repo: Repo, s: Site, t: Thing)
    requires repo.Valid() && HoldsAt(repo, s, t)
    ensures Dirty(repo, s, t.file) && t.file in Files(repo, s)
  {
  }

  /** Removing a tree takes nothing with it: its files are all committed, and its HEAD is
      reached by a ref. */
  lemma RemoveKeeps(repo: Repo, path: Path, w: Weather, t: Thing)
    requires repo.Valid() && path in repo.sites && repo.sites[path].Checkout?
    requires Holds(repo, t)
    ensures Holds(RemoveWorktree(repo, path, w).1, t)
  {
    var (reason, after) := RemoveWorktree(repo, path, w);
    if HoldsAt(repo, repo.sites[path], t) {
      EditIsDirty(repo, repo.sites[path], t);
    }
    hide Orphans, Dirty, Files;
    if reason.None? {
      forall c | c in repo.Tips()
        ensures c in after.Live()
      {
        RemovedTipsLive(repo, path, w, c);
      }
      TipsKept(repo, after);
      if t.StagedFile? && Recorded(repo, t.file, t.staged) {
        RecordedKept(repo, after, t.file, t.staged);
      }
    }
  }

  lemma RemovedTipsLive(repo: Repo, path: Path, w: Weather, c: Commit)
    requires repo.Valid() && path in repo.sites && repo.sites[path].Checkout?
    requires RemoveWorktree(repo, path, w).0.None?
    requires c in repo.Tips()
    ensures c in RemoveWorktree(repo, path, w).1.Live()
  {
    var after := RemoveWorktree(repo, path, w).1;
    if r :| r in repo.refs && repo.refs[r] == c {
      assert after.refs[r] == c;
      TipIsLive(after, c);
    } else {
      var p :| p in repo.sites && !repo.sites[p].Foreign? && repo.Tip(repo.sites[p].head) == Some(c);
      if p == path {
        assert !Orphans(repo, c);
        assert c in Ancestors(repo.history, c);
        var r :| r in repo.refs && Counted(r) && c in Ancestors(repo.history, repo.refs[r]);
        assert after.refs[r] in after.Tips();
      } else {
        assert after.sites[p] == repo.sites[p] && after.Tip(after.sites[p].head) == Some(c);
        TipIsLive(after, c);
      }
    }
  }

  /** A move that nothing blocks leaves an edited file as it was, staged and on disk, unless
      and only unless it overlooks a deletion; that file becomes the new snapshot's. */
  lemma MoveKeepsFile(repo: Repo, s: Site, head: Head, to: map<File, Content>, f: File)
    requires repo.Valid() && s.Checkout? && !Collides(repo, s, to) && Dirty(repo, s, f)
    ensures var r := MoveTo(repo, s, head, to);
            && (Get(r.index, f) == Get(s.index, f) && Get(r.work, f) == Get(s.work, f) <==> !Overlooked(repo, s, to, f))
            && (Overlooked(repo, s, to, f) ==> Get(r.index, f) == Get(r.work, f) == Get(to, f))
  {
    assert f in Files(repo, s) && !Blocks(repo, s, to, f);
  }

  /** Such a file apart, an edit rides along, or it was staged and the new snapshot has it. */
  lemma MoveKeepsEdits(repo: Repo, after: Repo, s: Site, head: Head, t: Thing)
    requires repo.Valid() && after.Valid() && s.Checkout?
    requires after.snapshots == repo.snapshots && after.ignored == repo.ignored
    requires !Collides(repo, s, after.Snapshot(after.Tip(head)))
    requires HoldsAt(repo, s, t)
    requires t.ModifiedFile? && t.onDisk.None? ==> !Overlooked(repo, s, after.Snapshot(after.Tip(head)), t.file)
    ensures var to := after.Snapshot(after.Tip(head));
            || HoldsAt(after, MoveTo(repo, s, head, to), t)
            || (t.StagedFile? && t.staged == Get(to, t.file) && Get(repo.Snapshot(repo.Tip(s.head)), t.file) != t.staged)
  {
    EditIsDirty(repo, s, t);
    MoveKeepsFile(repo, s, head, after.Snapshot(after.Tip(head)), t.file);
  }

  /** The merge moves HEAD, rather than refusing or finding the target behind it. */
  ghost predicate Advances(repo: Repo, path: Path, target: Commit, permit: bool)
    requires repo.Valid() && target < |repo.history|
    requires path in repo.sites && repo.sites[path].Checkout?
  {
    var head := HeadAt(repo, path);
    && permit && head != Some(target) && (head.Some? ==> head.value in Ancestors(repo.history, target))
    && !Collides(repo, repo.sites[path], repo.snapshots[target])
  }

  lemma AdvancesExactly(repo: Repo, path: Path, target: Commit, permit: bool)
    requires repo.Valid() && target < |repo.history|
    requires path in repo.sites && repo.sites[path].Checkout? && HeadAt(repo, path) != Some(target)
    requires AttachedBranch(repo, path).None?
    ensures var s, after := repo.sites[path], MergeFastForward(repo, path, target, permit).1;
            if Advances(repo, path, target, permit)
            then && path in after.sites && after.sites[path] == MoveTo(repo, s, after.sites[path].head, repo.snapshots[target])
                 && after.Tip(after.sites[path].head) == Some(target)
            else after == repo
  {
    var head := HeadAt(repo, path);
    if head.Some? && head.value in Ancestors(repo.history, target) {
      assert target !in Ancestors(repo.history, head.value);
    }
  }

  /** The one thing a fast-forward drops: a deletion it overlooks. */
  ghost predicate MergeDrops(repo: Repo, path: Path, target: Commit, permit: bool, t: Thing)
    requires repo.Valid() && target < |repo.history|
    requires path in repo.sites && repo.sites[path].Checkout?
  {
    && Advances(repo, path, target, permit)
    && t.ModifiedFile? && t.path == path && t.onDisk.None?
    && Overlooked(repo, repo.sites[path], repo.snapshots[target], t.file)
  }

  /** A fast-forward of a tree that is not on a branch: no ref moves, HEAD only advances,
      and the edits ride along, but for what it drops. */
  lemma MergeKeeps(repo: Repo, path: Path, target: Commit, permit: bool, t: Thing)
    requires repo.Valid() && target < |repo.history|
    requires path in repo.sites && repo.sites[path].Checkout? && AttachedBranch(repo, path).None?
    requires HeadAt(repo, path) != Some(target) && Holds(repo, t)
    ensures Holds(MergeFastForward(repo, path, target, permit).1, t) <==> !MergeDrops(repo, path, target, permit, t)
  {
    AdvancesExactly(repo, path, target, permit);
    if MergeDrops(repo, path, target, permit, t) {
      EditIsDirty(repo, repo.sites[path], t);
    } else if Advances(repo, path, target, permit) {
      MovedKeeps(repo, path, target, permit, t);
    }
  }

  lemma MovedKeeps(repo: Repo, path: Path, target: Commit, permit: bool, t: Thing)
    requires repo.Valid() && target < |repo.history|
    requires path in repo.sites && repo.sites[path].Checkout? && AttachedBranch(repo, path).None?
    requires HeadAt(repo, path) != Some(target) && Holds(repo, t)
    requires Advances(repo, path, target, permit) && !MergeDrops(repo, path, target, permit, t)
    ensures Holds(MergeFastForward(repo, path, target, permit).1, t)
  {
    var after := MergeFastForward(repo, path, target, permit).1;
    forall c | c in repo.Tips()
      ensures c in after.Live()
    {
      MergedTipsLive(repo, path, target, permit, c);
    }
    TipsKept(repo, after);
    hide Repo.Live, Repo.Tips;
    if t.StagedFile? && Recorded(repo, t.file, t.staged) {
      RecordedKept(repo, after, t.file, t.staged);
    } else if !t.LiveCommit? && !t.RefAt? && t.path == path {
      AdvancesExactly(repo, path, target, permit);
      MoveKeepsEdits(repo, after, repo.sites[path], after.sites[path].head, t);
      if !HoldsAt(after, after.sites[path], t) {
        StagedIsRecorded(repo, path, target, permit, t);
      }
    } else if t.StagedFile? {
      BornUnderAnother(repo, path, target, permit, t);
    }
  }

  /** A file staged as the target has it is recorded once HEAD is there. */
  lemma StagedIsRecorded(repo: Repo, path: Path, target: Commit, permit: bool, t: Thing)
    requires repo.Valid() && target < |repo.history|
    requires path in repo.sites && repo.sites[path].Checkout? && AttachedBranch(repo, path).None?
    requires HeadAt(repo, path) != Some(target) && Advances(repo, path, target, permit)
    requires t.StagedFile? && t.staged == Get(repo.snapshots[target], t.file)
    requires Get(repo.Snapshot(HeadAt(repo, path)), t.file) != t.staged
    ensures Recorded(MergeFastForward(repo, path, target, permit).1, t.file, t.staged)
  {
    var after, head := MergeFastForward(repo, path, target, permit).1, HeadAt(repo, path);
    AdvancesExactly(repo, path, target, permit);
    assert target in after.Tips();
    TipIsLive(after, target);
    assert RecordedBy(after, t.file, t.staged, target, if head.Some? then head.value else target);
  }

  /** A file staged in another tree: its index is untouched, and should its unborn branch
      be born here, the file is either still staged against the target or recorded by it. */
  lemma BornUnderAnother(repo: Repo, path: Path, target: Commit, permit: bool, t: Thing)
    requires repo.Valid() && target < |repo.history|
    requires path in repo.sites && repo.sites[path].Checkout? && AttachedBranch(repo, path).None?
    requires t.StagedFile? && t.path != path && t.path in repo.sites && HoldsAt(repo, repo.sites[t.path], t)
    ensures Holds(MergeFastForward(repo, path, target, permit).1, t)
  {
    var after := MergeFastForward(repo, path, target, permit).1;
    var s := repo.sites[t.path];
    assert after.sites[t.path] == s;
    if repo.Tip(s.head) != after.Tip(s.head) {
      assert repo.Tip(s.head).None? && after.Tip(s.head) == Some(target);
      assert repo.Snapshot(repo.Tip(s.head)) == map[];
      assert target in after.Tips();
      TipIsLive(after, target);
      if !HoldsAt(after, s, t) {
        assert RecordedBy(after, t.file, t.staged, target, target);
      }
    }
  }

  lemma MergedTipsLive(repo: Repo, path: Path, target: Commit, permit: bool, c: Commit)
    requires repo.Valid() && target < |repo.history|
    requires path in repo.sites && repo.sites[path].Checkout? && AttachedBranch(repo, path).None?
    requires c in repo.Tips()
    ensures c in MergeFastForward(repo, path, target, permit).1.Live()
  {
    var after := MergeFastForward(repo, path, target, permit).1;
    if after == repo {
      TipIsLive(after, c);
    } else if r :| r in repo.refs && repo.refs[r] == c {
      assert after.refs[r] == c;
      TipIsLive(after, c);
    } else {
      var p :| p in repo.sites && !repo.sites[p].Foreign? && repo.Tip(repo.sites[p].head) == Some(c);
      if p == path {
        assert after.Tip(after.sites[p].head) == Some(target);
        assert target in after.Tips() && c in Ancestors(after.history, target);
      } else {
        assert after.sites[p] == repo.sites[p] && after.Tip(after.sites[p].head) == Some(c);
        TipIsLive(after, c);
      }
    }
  }

  /** Re-attaching a tree to a branch whose tip it already sits on. */
  lemma CheckoutKeeps(repo: Repo, path: Path, branch: string, permit: bool, t: Thing)
    requires repo.Valid()
    requires path in repo.sites && repo.sites[path].Checkout?
    requires Get(repo.refs, BranchRef(branch)).Some? && HeadAt(repo, path) == Get(repo.refs, BranchRef(branch))
    requires Holds(repo, t)
    ensures Holds(CheckoutBranch(repo, path, branch, permit).1, t)
  {
    var (ok, after) := CheckoutBranch(repo, path, branch, permit);
    if ok {
      assert forall p :: p in repo.sites && p != path ==> after.sites[p] == repo.sites[p];
      forall c | c in repo.Tips()
        ensures c in after.Live()
      {
        if r :| r in repo.refs && repo.refs[r] == c {
          assert after.refs[r] == c;
        } else {
          var p :| p in repo.sites && !repo.sites[p].Foreign? && repo.Tip(repo.sites[p].head) == Some(c);
          assert after.Tip(after.sites[p].head) == Some(c);
        }
        TipIsLive(after, c);
      }
      TipsKept(repo, after);
      if t.StagedFile? && Recorded(repo, t.file, t.staged) {
        RecordedKept(repo, after, t.file, t.staged);
      } else if !t.LiveCommit? && !t.RefAt? && t.path == path {
        MoveKeepsEdits(repo, after, repo.sites[path], OnBranch(branch), t);
      }
    }
  }

  // ----- one sync -----------------------------------------------------------------

  /** The sync fast-forwards over a deletion it overlooks. */
  ghost predicate SyncOverlooks(repo: Repo, path: Path, target: Commit, recreate: bool, w: Weather, f: File)
    requires repo.Valid() && target < |repo.history|
  {
    && path in repo.sites && repo.sites[path].Checkout? && repo.sites[path].operation.None? && !recreate
    && AttachedBranch(repo, path).None? && Advances(repo, path, target, w.merge)
    && Overlooked(repo, repo.sites[path], repo.snapshots[target], f)
  }

  ghost predicate SyncDrops(repo: Repo, path: Path, target: Commit, recreate: bool, w: Weather, t: Thing)
    requires repo.Valid() && target < |repo.history|
  {
    t.ModifiedFile? && t.path == path && t.onDisk.None? && SyncOverlooks(repo, path, target, recreate, w, t.file)
  }

  /** Whatever the state, the request and the weather, a sync drops no commit, moves no ref
      and discards no edit, save a deletion it overlooks. */
  lemma SyncKeeps(repo: Repo, path: Path, ref: string, target: Commit, recreate: bool, w: Weather, t: Thing)
    requires repo.Valid() && target < |repo.history|
    requires Holds(repo, t)
    ensures Sync(repo, path, ref, target, recreate, w).repo.Valid()
    ensures Holds(Sync(repo, path, ref, target, recreate, w).repo, t) <==> !SyncDrops(repo, path, target, recreate, w, t)
  {
    hide Holds, LayFresh, Bring, RemoveWorktree, Advances, Overlooked;
    if !Occupied(repo, path) {
      LayFreshKeeps(repo, path, ref, target, w, t);
    } else if repo.sites[path].Checkout? && repo.sites[path].operation.None? {
      if !recreate {
        BringKeeps(repo, path, ref, target, w, t);
      } else {
        RemoveKeeps(repo, path, w, t);
        var (reason, after) := RemoveWorktree(repo, path, w);
        if reason.None? {
          LayFreshKeeps(after, path, ref, target, w, t);
        }
      }
    }
  }

  lemma SyncKeepsAll(repo: Repo, path: Path, ref: string, target: Commit, recreate: bool, w: Weather)
    requires repo.Valid() && target < |repo.history|
    ensures var after := Sync(repo, path, ref, target, recreate, w).repo;
            && after.Valid()
            && forall t :: Holds(repo, t) ==> (Holds(after, t) <==> !SyncDrops(repo, path, target, recreate, w, t))
  {
    SyncHonest(repo, path, ref, target, recreate, w);
    forall t | Holds(repo, t)
      ensures Holds(Sync(repo, path, ref, target, recreate, w).repo, t) <==> !SyncDrops(repo, path, target, recreate, w, t)
    {
      SyncKeeps(repo, path, ref, target, recreate, w, t);
    }
  }

  /** A sync keeps everything exactly when it overlooks no deletion: no file on which HEAD and
      a target it advances to differ is in the index as at HEAD and missing from the disk. */
  lemma SyncKeepsExactly(repo: Repo, path: Path, ref: string, target: Commit, recreate: bool, w: Weather)
    requires repo.Valid() && target < |repo.history|
    ensures var after := Sync(repo, path, ref, target, recreate, w).repo;
            && after.Valid()
            && ((forall t :: Holds(repo, t) ==> Holds(after, t)) <==>
                  forall f :: !SyncOverlooks(repo, path, target, recreate, w, f))
  {
    SyncKeepsAll(repo, path, ref, target, recreate, w);
    var after := Sync(repo, path, ref, target, recreate, w).repo;
    forall f | SyncOverlooks(repo, path, target, recreate, w, f)
      ensures Holds(repo, ModifiedFile(path, f, None)) && !Holds(after, ModifiedFile(path, f, None))
    {
      SyncKeeps(repo, path, ref, target, recreate, w, ModifiedFile(path, f, None));
    }
  }

  lemma LayFreshKeeps(repo: Repo, path: Path, ref: string, target: Commit, w: Weather, t: Thing)
    requires repo.Valid() && target < |repo.history| && Holds(repo, t)
    ensures LayFresh(repo, path, ref, target, w).repo.Valid()
    ensures Holds(LayFresh(repo, path, ref, target, w).repo, t)
  {
    var branch := AttachableBranch(repo, ref, target);
    AddKeeps(repo, path, if branch.Some? then OnBranch(branch.value) else DetachedAt(target), w.add, t);
  }

  lemma BringKeeps(repo: Repo, path: Path, ref: string, target: Commit, w: Weather, t: Thing)
    requires repo.Valid() && target < |repo.history| && Holds(repo, t)
    requires path in repo.sites && repo.sites[path].Checkout?
    ensures Bring(repo, path, ref, target, w).repo.Valid()
    ensures Holds(Bring(repo, path, ref, target, w).repo, t)
       <==> !(AttachedBranch(repo, path).None? && MergeDrops(repo, path, target, w.merge, t))
  {
    if AttachedBranch(repo, path).None? {
      if HeadAt(repo, path) != Some(target) {
        MergeKeeps(repo, path, target, w.merge, t);
      } else if AttachableBranch(repo, ref, target).Some? {
        CheckoutKeeps(repo, path, ref, w.checkout, t);
      }
    }
  }

  /** An edited file stays where it is, in the same tree with the same staged and on-disk
      content, unless and only unless it is a deletion the sync overlooks. Then it is the
      target's: back when the target has it, and its deletion recorded when not. */
  lemma SyncLeavesEditsInPlace(repo: Repo, path: Path, ref: string, target: Commit, recreate: bool, w: Weather,
                               p: Path, f: File)
    requires repo.Valid() && target < |repo.history|
    requires p in repo.sites && repo.sites[p].Checkout? && Dirty(repo, repo.sites[p], f)
    ensures var after := Sync(repo, path, ref, target, recreate, w).repo;
            && p in after.sites && after.sites[p].Checkout?
            && (InPlace(repo.sites[p], after.sites[p], f) <==>
                  !(p == path && SyncOverlooks(repo, path, target, recreate, w, f)))
            && (InPlace(repo.sites[p], after.sites[p], f) || HasAs(after.sites[p], f, Get(repo.snapshots[target], f)))
  {
    SyncFrame(repo, path, ref, target, recreate, w);
    var after := Sync(repo, path, ref, target, recreate, w).repo;
    if p != path {
      assert p in repo.sites - {path} && p in after.sites - {path};
      assert (after.sites - {path})[p] == after.sites[p] && (repo.sites - {path})[p] == repo.sites[p];
    } else if repo.sites[p].operation.None? {
      assert f in Files(repo, repo.sites[p]);
      if !recreate {
        BringLeavesEditsInPlace(repo, path, ref, target, w, f);
      }
    }
  }

  predicate InPlace(before: Site, after: Site, f: File)
    requires before.Checkout? && after.Checkout?
  {
    Get(after.index, f) == Get(before.index, f) && Get(after.work, f) == Get(before.work, f)
  }

  predicate HasAs(s: Site, f: File, x: Option<Content>)
    requires s.Checkout?
  {
    Get(s.index, f) == Get(s.work, f) == x
  }

  lemma BringLeavesEditsInPlace(repo: Repo, path: Path, ref: string, target: Commit, w: Weather, f: File)
    requires repo.Valid() && target < |repo.history|
    requires path in repo.sites && repo.sites[path].Checkout? && Dirty(repo, repo.sites[path], f)
    ensures var s, after := repo.sites[path], Bring(repo, path, ref, target, w).repo;
            && path in after.sites && after.sites[path].Checkout?
            && (InPlace(s, after.sites[path], f) <==>
                  !(&& AttachedBranch(repo, path).None? && Advances(repo, path, target, w.merge)
                    && Overlooked(repo, s, repo.snapshots[target], f)))
            && (InPlace(s, after.sites[path], f) || HasAs(after.sites[path], f, Get(repo.snapshots[target], f)))
  {
    var s, after := repo.sites[path], Bring(repo, path, ref, target, w).repo;
    if HeadAt(repo, path) != Some(target) && AttachedBranch(repo, path).None? {
      AdvancesExactly(repo, path, target, w.merge);
    }
    if after != repo {
      assert !Collides(repo, s, repo.snapshots[target]);
      MoveKeepsFile(repo, s, after.sites[path].head, repo.snapshots[target], f);
    }
  }

  /** Only the synced path may change, and no ref except the unborn branch that may be
      checked out there, which can only be born at the target. */
  ghost predicate Framed(repo: Repo, after: Repo, path: Path, target: Commit)
    requires repo.Valid()
  {
    && after.history == repo.history && after.snapshots == repo.snapshots && after.ignored == repo.ignored
    && after.sites - {path} == repo.sites - {path}
    && (after.refs == repo.refs ||
        (&& path in repo.sites && repo.sites[path].Checkout? && repo.sites[path].head.OnBranch?
         && HeadAt(repo, path).None?
         && after.refs == repo.refs[BranchRef(repo.sites[path].head.branch) := target]))
  }

  /** When a sync does change a ref: HEAD names a branch yet to be born, and the merge goes
      through. */
  ghost predicate GivesBirth(repo: Repo, path: Path, target: Commit, recreate: bool, w: Weather)
    requires repo.Valid() && target < |repo.history|
  {
    && path in repo.sites && repo.sites[path].Checkout? && repo.sites[path].operation.None?
    && !recreate && Unborn(repo, path)
    && w.merge && !Collides(repo, repo.sites[path], repo.snapshots[target])
  }

  ghost predicate Unborn(repo: Repo, path: Path)
    requires repo.Valid() && path in repo.sites && repo.sites[path].Checkout?
  {
    repo.sites[path].head.OnBranch? && HeadAt(repo, path).None?
  }

  lemma LayFreshFrame(repo: Repo, path: Path, ref: string, target: Commit, w: Weather)
    requires repo.Valid() && target < |repo.history|
    ensures Framed(repo, LayFresh(repo, path, ref, target, w).repo, path, target)
    ensures LayFresh(repo, path, ref, target, w).repo.refs == repo.refs
  {
    var after := LayFresh(repo, path, ref, target, w).repo;
    assert after.sites - {path} == repo.sites - {path};
  }

  lemma MergeFrame(repo: Repo, path: Path, target: Commit, permit: bool)
    requires repo.Valid() && target < |repo.history|
    requires path in repo.sites && repo.sites[path].Checkout? && AttachedBranch(repo, path).None?
    ensures Framed(repo, MergeFastForward(repo, path, target, permit).1, path, target)
  {
    var after := MergeFastForward(repo, path, target, permit).1;
    hide Collides, MoveTo, Ancestors;
    assert after.sites - {path} == repo.sites - {path};
  }

  lemma CheckoutFrame(repo: Repo, path: Path, branch: string, target: Commit, permit: bool)
    requires repo.Valid() && path in repo.sites && repo.sites[path].Checkout?
    ensures Framed(repo, CheckoutBranch(repo, path, branch, permit).1, path, target)
  {
    var after := CheckoutBranch(repo, path, branch, permit).1;
    hide Collides, MoveTo, Repo.Held;
    assert after.sites - {path} == repo.sites - {path};
  }

  lemma BringFrame(repo: Repo, path: Path, ref: string, target: Commit, w: Weather)
    requires repo.Valid() && target < |repo.history|
    requires path in repo.sites && repo.sites[path].Checkout?
    ensures Framed(repo, Bring(repo, path, ref, target, w).repo, path, target)
  {
    assert Framed(repo, repo, path, target);
    hide Framed, MergeFastForward, CheckoutBranch;
    if AttachedBranch(repo, path).None? {
      MergeFrame(repo, path, target, w.merge);
      CheckoutFrame(repo, path, ref, target, w.checkout);
    }
  }

  lemma BringBirth(repo: Repo, path: Path, ref: string, target: Commit, w: Weather)
    requires repo.Valid() && target < |repo.history|
    requires path in repo.sites && repo.sites[path].Checkout?
    ensures Bring(repo, path, ref, target, w).repo.refs != repo.refs <==>
              Unborn(repo, path) && w.merge && !Collides(repo, repo.sites[path], repo.snapshots[target])
  {
    var s := repo.sites[path];
    if Unborn(repo, path) {
      assert BranchRef(s.head.branch) !in repo.refs;
    }
  }

  lemma SyncFrame(repo: Repo, path: Path, ref: string, target: Commit, recreate: bool, w: Weather)
    requires repo.Valid() && target < |repo.history|
    ensures Framed(repo, Sync(repo, path, ref, target, recreate, w).repo, path, target)
    ensures Sync(repo, path, ref, target, recreate, w).repo.refs != repo.refs <==>
              GivesBirth(repo, path, target, recreate, w)
  {
    hide Collides, Orphans, WorktreeAdd, WorktreeRemove;
    if !Occupied(repo, path) {
      LayFreshFrame(repo, path, ref, target, w);
    } else if repo.sites[path].Checkout? && repo.sites[path].operation.None? {
      if !recreate {
        BringFrame(repo, path, ref, target, w);
        BringBirth(repo, path, ref, target, w);
      } else {
        var (reason, after) := RemoveWorktree(repo, path, w);
        RemoveFrame(repo, path, w);
        if reason.None? {
          LayFreshFrame(after, path, ref, target, w);
        }
      }
    }
  }

  lemma RemoveFrame(repo: Repo, path: Path, w: Weather)
    requires repo.Valid() && path in repo.sites && repo.sites[path].Checkout?
    ensures var (reason, after) := RemoveWorktree(repo, path, w);
            after == if reason.None? then repo.(sites := repo.sites - {path}) else repo
  {
  }

  // ----- the contract -------------------------------------------------------------

  /** The commit reported is where the tree really is, and success means the target. */
  ghost predicate Honest(r: Worktree.Synced, path: Path, target: Commit) {
    && r.repo.Valid()
    && r.commit == HeadAt(r.repo, path)
    && (r.reason.None? ==> && r.commit == Some(target)
                           && path in r.repo.sites && r.repo.sites[path].Checkout?
                           && r.repo.sites[path].operation.None?)
  }

  lemma BringHonest(repo: Repo, path: Path, ref: string, target: Commit, w: Weather)
    requires repo.Valid() && target < |repo.history|
    requires path in repo.sites && repo.sites[path].Checkout? && repo.sites[path].operation.None?
    ensures Honest(Bring(repo, path, ref, target, w), path, target)
  {
  }

  lemma SyncHonest(repo: Repo, path: Path, ref: string, target: Commit, recreate: bool, w: Weather)
    requires repo.Valid() && target < |repo.history|
    ensures Honest(Sync(repo, path, ref, target, recreate, w), path, target)
  {
    if Occupied(repo, path) && repo.sites[path].Checkout? && repo.sites[path].operation.None? && !recreate {
      BringHonest(repo, path, ref, target, w);
    }
  }

  /** Success exactly when the tree can carry the target without discarding anything. */
  ghost predicate CanSync(repo: Repo, path: Path, target: Commit, recreate: bool, w: Weather)
    requires repo.Valid() && target < |repo.history|
  {
    if path !in repo.sites then w.add else
    match repo.sites[path]
    case Foreign(_) => false
    case Missing(_) => false
    case Checkout(_, _, _, operation) =>
      operation.None? && if recreate then CanRemove(repo, path, w) && w.add else CanBring(repo, path, target, w)
  }

  lemma LayFreshSucceedsExactly(repo: Repo, path: Path, ref: string, target: Commit, w: Weather)
    requires repo.Valid() && target < |repo.history|
    ensures LayFresh(repo, path, ref, target, w).reason.None? <==> w.add && path !in repo.sites
  {
  }

  ghost predicate CanBring(repo: Repo, path: Path, target: Commit, w: Weather)
    requires repo.Valid() && target < |repo.history|
    requires path in repo.sites && repo.sites[path].Checkout?
  {
    var head := HeadAt(repo, path);
    || head == Some(target)
    || (&& AttachedBranch(repo, path).None?
        && (head.Some? ==> head.value in Ancestors(repo.history, target))
        && !Collides(repo, repo.sites[path], repo.snapshots[target]) && w.merge)
  }

  lemma BringSucceedsExactly(repo: Repo, path: Path, ref: string, target: Commit, w: Weather)
    requires repo.Valid() && target < |repo.history|
    requires path in repo.sites && repo.sites[path].Checkout?
    ensures Bring(repo, path, ref, target, w).reason.None? <==> CanBring(repo, path, target, w)
  {
    var head := HeadAt(repo, path);
    if head.Some? && head != Some(target) && head.value in Ancestors(repo.history, target) {
      assert target !in Ancestors(repo.history, head.value);
    }
  }

  ghost predicate CanRemove(repo: Repo, path: Path, w: Weather)
    requires repo.Valid() && path in repo.sites && repo.sites[path].Checkout?
  {
    var head := HeadAt(repo, path);
    && (head.Some? ==> w.revList && !Orphans(repo, head.value))
    && (forall f :: !Dirty(repo, repo.sites[path], f)) && w.remove
  }

  lemma RemoveSucceedsExactly(repo: Repo, path: Path, w: Weather)
    requires repo.Valid() && path in repo.sites && repo.sites[path].Checkout?
    ensures RemoveWorktree(repo, path, w).0.None? <==> CanRemove(repo, path, w)
  {
    var s := repo.sites[path];
    assert forall f :: Dirty(repo, s, f) ==> f in Files(repo, s);
  }

  lemma SyncSucceedsExactly(repo: Repo, path: Path, ref: string, target: Commit, recreate: bool, w: Weather)
    requires repo.Valid() && target < |repo.history|
    ensures Sync(repo, path, ref, target, recreate, w).reason.None? <==> CanSync(repo, path, target, recreate, w)
  {
    hide CanBring, CanRemove, LayFresh, Bring, RemoveWorktree;
    if !Occupied(repo, path) {
      LayFreshSucceedsExactly(repo, path, ref, target, w);
    } else if repo.sites[path].Checkout? {
      BringSucceedsExactly(repo, path, ref, target, w);
      RemoveSucceedsExactly(repo, path, w);
      RemoveFrame(repo, path, w);
      LayFreshSucceedsExactly(RemoveWorktree(repo, path, w).1, path, ref, target, w);
    }
  }

  /** Repeating a sync that succeeded, without recreating, succeeds again on the same
      commit in any weather. */
  lemma SyncRepeats(repo: Repo, path: Path, ref: string, target: Commit, recreate: bool, w: Weather, w': Weather)
    requires repo.Valid() && target < |repo.history|
    requires Sync(repo, path, ref, target, recreate, w).reason.None?
    ensures var first := Sync(repo, path, ref, target, recreate, w);
            && first.repo.Valid() && target < |first.repo.history|
            && var again := Sync(first.repo, path, ref, target, false, w');
               again.repo.Valid() && again.reason.None? && again.commit == first.commit == HeadAt(again.repo, path)
  {
    SyncHonest(repo, path, ref, target, recreate, w);
    SyncFrame(repo, path, ref, target, recreate, w);
    var first := Sync(repo, path, ref, target, recreate, w);
    SyncSucceedsExactly(first.repo, path, ref, target, false, w');
    SyncHonest(first.repo, path, ref, target, false, w');
  }

  // ----- what git does not leave alone --------------------------------------------

  const FAIR := Weather(true, true, true, true, true)

  /** A tree detached at a commit whose only file the developer deleted, and a next commit that
      changes that file. */
  function DeletedFile(path: Path, f: File, x: Content, y: Content): Repo {
    Repo([{}, {0}], [map[f := x], map[f := y]], map[],
         map[path := Checkout(DetachedAt(0), map[f := x], map[], None)], {})
  }

  lemma DeletedIsOverlooked(path: Path, f: File, x: Content, y: Content)
    requires x != y
    ensures var repo := DeletedFile(path, f, x, y);
            repo.Valid() && Holds(repo, ModifiedFile(path, f, None)) && SyncOverlooks(repo, path, 1, false, FAIR, f)
  {
    var repo := DeletedFile(path, f, x, y);
    assert 0 in repo.history[1] && 0 in Ancestors(repo.history, 0);
    assert 0 in Ancestors(repo.history, 1);
    assert Overlooked(repo, repo.sites[path], repo.snapshots[1], f);
  }

  /** The sync to that commit succeeds, and the file is back with the new content. */
  lemma DeletionComesBack(path: Path, f: File, x: Content, y: Content, ref: string)
    requires x != y
    ensures var repo, t := DeletedFile(path, f, x, y), ModifiedFile(path, f, None);
            && repo.Valid() && Holds(repo, t)
            && var r := Sync(repo, path, ref, 1, false, FAIR);
               && r.reason.None? && r.repo.Valid() && !Holds(r.repo, t)
               && path in r.repo.sites && r.repo.sites[path].Checkout? && HasAs(r.repo.sites[path], f, Some(y))
  {
    var repo := DeletedFile(path, f, x, y);
    DeletedIsOverlooked(path, f, x, y);
    assert Dirty(repo, repo.sites[path], f) && CanBring(repo, path, 1, FAIR);
    hide Sync, Holds, SyncOverlooks, Overlooked, Dirty, CanBring, Advances;
    SyncKeeps(repo, path, ref, 1, false, FAIR, ModifiedFile(path, f, None));
    SyncLeavesEditsInPlace(repo, path, ref, 1, false, FAIR, path, f);
    SyncSucceedsExactly(repo, path, ref, 1, false, FAIR);
  }

  /** A sync of a tree on a branch yet to be born makes that branch. */
  lemma BirthMovesARef(path: Path, branch: string, ref: string)
    ensures var repo := Repo([{}], [map[]], map[], map[path := Checkout(OnBranch(branch), map[], map[], None)], {});
            repo.Valid() && Sync(repo, path, ref, 0, false, FAIR).repo.refs == map[BranchRef(branch) := 0]
  {
    var repo := Repo([{}], [map[]], map[], map[path := Checkout(OnBranch(branch), map[], map[], None)], {});
    assert GivesBirth(repo, path, 0, false, FAIR);
    hide Sync, GivesBirth;
    SyncFrame(repo, path, ref, 0, false, FAIR);
  }

  // ----- who holds which branch ---------------------------------------------------

  /** No branch is checked out twice. */
  ghost predicate HeldOnce(repo: Repo) {
    forall p, q, b :: HeldAt(repo, p, b) && HeldAt(repo, q, b) ==> p == q
  }

  ghost predicate HeldAt(repo: Repo, p: Path, b: string) {
    p in repo.sites && !repo.sites[p].Foreign? && repo.sites[p].head == OnBranch(b)
  }

  /** `after` differs at one path, which took no branch, kept its own or took one that was
      free. */
  lemma StaysHeldOnce(repo: Repo, after: Repo, path: Path)
    requires HeldOnce(repo) && after.sites - {path} == repo.sites - {path}
    requires forall b :: HeldAt(after, path, b) ==> HeldAt(repo, path, b) || !repo.Held(b)
    ensures HeldOnce(after)
  {
    forall p, q, b | HeldAt(after, p, b) && HeldAt(after, q, b)
      ensures p == q
    {
      HeldElsewhere(repo, after, path, p, b);
      HeldElsewhere(repo, after, path, q, b);
      assert HeldAt(repo, p, b) ==> repo.Held(b);
      assert HeldAt(repo, q, b) ==> repo.Held(b);
    }
  }

  lemma HeldElsewhere(repo: Repo, after: Repo, path: Path, p: Path, b: string)
    requires after.sites - {path} == repo.sites - {path}
    ensures p != path ==> (HeldAt(after, p, b) <==> HeldAt(repo, p, b))
  {
    if p != path {
      assert p in after.sites <==> p in after.sites - {path};
      assert p in repo.sites <==> p in repo.sites - {path};
    }
  }

  /** A sync never checks a branch out a second time. */
  lemma SyncKeepsHeldOnce(repo: Repo, path: Path, ref: string, target: Commit, recreate: bool, w: Weather)
    requires repo.Valid() && target < |repo.history| && HeldOnce(repo)
    ensures HeldOnce(Sync(repo, path, ref, target, recreate, w).repo)
  {
    var after := Sync(repo, path, ref, target, recreate, w).repo;
    SyncFrame(repo, path, ref, target, recreate, w);
    forall b | HeldAt(after, path, b)
      ensures HeldAt(repo, path, b) || !repo.Held(b)
    {
      TakesFreeBranch(repo, path, ref, target, recreate, w, b);
    }
    StaysHeldOnce(repo, after, path);
  }

  /** What laying a tree, or bringing one along, may leave at the path. */
  lemma LaidOnFree(repo: Repo, path: Path, ref: string, target: Commit, w: Weather, b: string)
    requires repo.Valid() && target < |repo.history| && HeldAt(LayFresh(repo, path, ref, target, w).repo, path, b)
    ensures HeldAt(repo, path, b) || !repo.Held(b)
  {
  }

  lemma BroughtOnFree(repo: Repo, path: Path, ref: string, target: Commit, w: Weather, b: string)
    requires repo.Valid() && target < |repo.history| && path in repo.sites && repo.sites[path].Checkout?
    requires HeldAt(Bring(repo, path, ref, target, w).repo, path, b)
    ensures HeldAt(repo, path, b) || !repo.Held(b)
  {
  }

  lemma TakesFreeBranch(repo: Repo, path: Path, ref: string, target: Commit, recreate: bool, w: Weather, b: string)
    requires repo.Valid() && target < |repo.history| && HeldOnce(repo)
    requires HeldAt(Sync(repo, path, ref, target, recreate, w).repo, path, b)
    ensures HeldAt(repo, path, b) || !repo.Held(b)
  {
    hide HeldAt, LayFresh, Bring, HeldOnce, RemoveWorktree;
    if !Occupied(repo, path) {
      LaidOnFree(repo, path, ref, target, w, b);
    } else if repo.sites[path].Checkout? && repo.sites[path].operation.None? {
      if !recreate {
        BroughtOnFree(repo, path, ref, target, w, b);
      } else {
        RemoveFrame(repo, path, w);
        var removed := RemoveWorktree(repo, path, w).1;
        if RemoveWorktree(repo, path, w).0.None? {
          LaidOnFree(removed, path, ref, target, w, b);
          RemovedFrees(repo, removed, path, b);
        }
      }
    }
  }

  lemma RemovedFrees(repo: Repo, removed: Repo, path: Path, b: string)
    requires removed == repo.(sites := repo.sites - {path})
    ensures !HeldAt(removed, path, b) && (repo.Held(b) ==> HeldAt(repo, path, b) || removed.Held(b))
  {
    if repo.Held(b) {
      HeldBefore(repo, removed, path, b);
    }
  }

  /** Removing a tree frees its branch and no other. */
  lemma HeldBefore(repo: Repo, removed: Repo, path: Path, b: string)
    requires removed == repo.(sites := repo.sites - {path}) && repo.Held(b)
    ensures HeldAt(repo, path, b) || removed.Held(b)
  {
    var p :| p in repo.sites && !repo.sites[p].Foreign? && repo.sites[p].head == OnBranch(b);
    if p != path {
      assert p in removed.sites && removed.sites[p] == repo.sites[p];
    }
  }

  /** The branch rests on the target, and no other tree has it checked out. */
  ghost predicate Wanted(repo: Repo, path: Path, ref: string, target: Commit) {
    Get(repo.refs, BranchRef(ref)) == Some(target) && forall p :: HeldAt(repo, p, ref) ==> p == path
  }

  lemma WantedIsAttachable(repo: Repo, path: Path, ref: string, target: Commit)
    requires !HeldAt(repo, path, ref)
    ensures AttachableBranch(repo, ref, target) == if Wanted(repo, path, ref, target) then Some(ref) else None
  {
    if repo.Held(ref) {
      var p :| p in repo.sites && !repo.sites[p].Foreign? && repo.sites[p].head == OnBranch(ref);
      assert HeldAt(repo, p, ref);
    }
  }

  lemma LaidHead(repo: Repo, path: Path, ref: string, target: Commit, w: Weather)
    requires repo.Valid() && target < |repo.history| && path !in repo.sites
    requires LayFresh(repo, path, ref, target, w).reason.None?
    ensures var after := LayFresh(repo, path, ref, target, w).repo;
            && path in after.sites && after.sites[path].Checkout?
            && after.sites[path].head == if Wanted(repo, path, ref, target) then OnBranch(ref) else DetachedAt(target)
  {
    WantedIsAttachable(repo, path, ref, target);
  }

  lemma BroughtHead(repo: Repo, path: Path, ref: string, target: Commit, w: Weather)
    requires repo.Valid() && target < |repo.history| && path in repo.sites && repo.sites[path].Checkout?
    requires Bring(repo, path, ref, target, w).reason.None?
    ensures var after, head := Bring(repo, path, ref, target, w).repo, repo.sites[path].head;
            && path in after.sites && after.sites[path].Checkout?
            && after.sites[path].head ==
                 if head.OnBranch? then head
                 else if head != DetachedAt(target) then DetachedAt(target)
                 else if Wanted(repo, path, ref, target) && w.checkout then OnBranch(ref)
                 else head
  {
    if repo.sites[path].head == DetachedAt(target) {
      WantedIsAttachable(repo, path, ref, target);
      assert !Collides(repo, repo.sites[path], repo.Snapshot(Some(target)));
    }
  }

  lemma WantedAfterRemove(repo: Repo, removed: Repo, path: Path, ref: string, target: Commit)
    requires removed == repo.(sites := repo.sites - {path})
    ensures Wanted(removed, path, ref, target) <==> Wanted(repo, path, ref, target)
  {
    assert forall p :: p != path ==> (HeldAt(removed, p, ref) <==> HeldAt(repo, p, ref));
  }

  /** Where a successful sync leaves HEAD. A tree laid fresh or laid again is on the branch
      asked for exactly when that branch rests on the target and is free; a tree found on a
      branch stays on it; one found detached at the target takes the branch if git lets the
      checkout through; any other detached tree is detached at the target. */
  lemma SyncAttaches(repo: Repo, path: Path, ref: string, target: Commit, recreate: bool, w: Weather)
    requires repo.Valid() && target < |repo.history|
    requires Sync(repo, path, ref, target, recreate, w).reason.None?
    ensures var after := Sync(repo, path, ref, target, recreate, w).repo;
            && path in after.sites && after.sites[path].Checkout?
            && after.sites[path].head ==
                 if path !in repo.sites || recreate then
                   (if Wanted(repo, path, ref, target) then OnBranch(ref) else DetachedAt(target))
                 else if repo.sites[path].Checkout? && repo.sites[path].head.OnBranch? then repo.sites[path].head
                 else if repo.sites[path].Checkout? && repo.sites[path].head == DetachedAt(target)
                      && Wanted(repo, path, ref, target) && w.checkout then OnBranch(ref)
                 else DetachedAt(target)
  {
    hide Wanted, LayFresh, Bring, RemoveWorktree;
    if !Occupied(repo, path) {
      LayFreshSucceedsExactly(repo, path, ref, target, w);
      LaidHead(repo, path, ref, target, w);
    } else if !recreate {
      BroughtHead(repo, path, ref, target, w);
    } else {
      RemoveFrame(repo, path, w);
      var removed := RemoveWorktree(repo, path, w).1;
      LaidHead(removed, path, ref, target, w);
      WantedAfterRemove(repo, removed, path, ref, target);
    }
  }

  // ----- whole runs ---------------------------------------------------------------

  /** A run interleaves whole syncs with anything at all a developer may do. */
  datatype Event =
    | Synced(path: Path, ref: string, target: Commit, recreate: bool, weather: Weather)
    | Developer(after: Repo)

  ghost predicate Possible(repo: Repo, e: Event) {
    repo.Valid() && match e
      case Synced(_, _, target, _, _) => target < |repo.history|
      case Developer(after) => after.Valid()
  }

  ghost function Step(repo: Repo, e: Event): Repo
    requires Possible(repo, e)
  {
    match e
    case Synced(p, r, t, recreate, w) => Sync(repo, p, r, t, recreate, w).repo
    case Developer(after) => after
  }

  ghost predicate StepAt(states: seq<Repo>, events: seq<Event>, i: nat)
    requires |states| == |events| + 1 && i < |events|
  {
    Possible(states[i], events[i]) && states[i + 1] == Step(states[i], events[i])
  }

  ghost predicate IsRun(states: seq<Repo>, events: seq<Event>) {
    && |states| == |events| + 1
    && (forall i :: 0 <= i < |states| ==> states[i].Valid())
    && forall i :: 0 <= i < |events| ==> StepAt(states, events, i)
  }

  ghost predicate StepDrops(repo: Repo, e: Event, t: Thing)
    requires Possible(repo, e)
  {
    e.Synced? && SyncDrops(repo, e.path, e.target, e.recreate, e.weather, t)
  }

  lemma SyncStepKeeps(states: seq<Repo>, events: seq<Event>, i: nat, t: Thing)
    requires IsRun(states, events) && i < |events| && events[i].Synced?
    requires Holds(states[i], t)
    ensures Possible(states[i], events[i]) && (Holds(states[i + 1], t) <==> !StepDrops(states[i], events[i], t))
  {
    assert StepAt(states, events, i);
    var e := events[i];
    SyncKeeps(states[i], e.path, e.ref, e.target, e.recreate, e.weather, t);
  }

  /** Over any run, something held at the start and gone after `n` steps was dropped by a step
      the developer took, or is a deletion of theirs that a sync overlooked. */
  lemma {:induction false} EveryLossIsTraced(states: seq<Repo>, events: seq<Event>, t: Thing, n: nat) returns (k: nat)
    requires IsRun(states, events) && n <= |events|
    requires Holds(states[0], t) && !Holds(states[n], t)
    ensures k < n && Holds(states[k], t) && !Holds(states[k + 1], t)
    ensures Possible(states[k], events[k]) && (events[k].Developer? || StepDrops(states[k], events[k], t))
  {
    hide Holds, StepDrops, Step;
    if n == 0 {
      assert false;
    } else if Holds(states[n - 1], t) {
      k := n - 1;
      assert StepAt(states, events, k);
      if events[k].Synced? {
        SyncStepKeeps(states, events, k, t);
      }
    } else {
      k := EveryLossIsTraced(states, events, t, n - 1);
    }
  }
}
