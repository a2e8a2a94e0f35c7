/** What a sync leaves behind and what it says: the files of a tree that was brought to the
    target, and the one reason for a tree that was not. */
module SyncContract {
  import opened Wrappers
  import opened History
  import opened Worktree
  import opened WorktreeSafety

  // ----- the tree carries the target ----------------------------------------------

  /** A file that was not edited is the target's, in the index and on disk; an ignored file the
      target does not track stays. */
  predicate Brought(before: Site, after: Site, f: File, x: Option<Content>)
    requires before.Checkout? && after.Checkout?
  {
    && Get(after.index, f) == x
    && Get(after.work, f) == if x.None? && f !in before.index then Get(before.work, f) else x
  }

  lemma LaidCarries(repo: Repo, path: Path, ref: string, target: Commit, w: Weather, f: File)
    requires repo.Valid() && target < |repo.history|
    requires LayFresh(repo, path, ref, target, w).reason.None?
    ensures var after := LayFresh(repo, path, ref, target, w).repo;
            && path in after.sites && after.sites[path].Checkout?
            && HasAs(after.sites[path], f, Get(repo.snapshots[target], f))
  {
  }

  lemma BroughtCarries(repo: Repo, path: Path, ref: string, target: Commit, w: Weather, f: File)
    requires repo.Valid() && target < |repo.history| && path in repo.sites && repo.sites[path].Checkout?
    requires Bring(repo, path, ref, target, w).reason.None? && !Dirty(repo, repo.sites[path], f)
    ensures var after := Bring(repo, path, ref, target, w).repo;
            && path in after.sites && after.sites[path].Checkout?
            && Brought(repo.sites[path], after.sites[path], f, Get(repo.snapshots[target], f))
  {
    if HeadAt(repo, path) != Some(target) {
      AdvancesExactly(repo, path, target, w.merge);
    }
  }

  /** After a sync that succeeds, every file of a tree laid fresh or laid again is the target's,
      in the index and on disk, and so is every file of a kept tree that was not edited. */
  lemma SyncCarries(repo: Repo, path: Path, ref: string, target: Commit, recreate: bool, w: Weather, f: File)
    requires repo.Valid() && target < |repo.history|
    requires Sync(repo, path, ref, target, recreate, w).reason.None?
    ensures var after := Sync(repo, path, ref, target, recreate, w).repo;
            && path in after.sites && after.sites[path].Checkout?
            && var s, x := after.sites[path], Get(repo.snapshots[target], f);
               if path !in repo.sites || recreate then HasAs(s, f, x)
               else repo.sites[path].Checkout? && (!Dirty(repo, repo.sites[path], f) ==> Brought(repo.sites[path], s, f, x))
  {
    SyncHonest(repo, path, ref, target, recreate, w);
    hide LayFresh, Bring, RemoveWorktree, Dirty, HasAs, Brought, HeadAt;
    if !Occupied(repo, path) {
      LayFreshSucceedsExactly(repo, path, ref, target, w);
      LaidCarries(repo, path, ref, target, w, f);
    } else if recreate {
      RemoveFrame(repo, path, w);
      LaidCarries(RemoveWorktree(repo, path, w).1, path, ref, target, w, f);
    } else if !Dirty(repo, repo.sites[path], f) {
      BroughtCarries(repo, path, ref, target, w, f);
    }
  }

  // ----- the reason ---------------------------------------------------------------

  predicate Ours(repo: Repo, path: Path) {
    path in repo.sites && repo.sites[path].Checkout? && repo.sites[path].operation.None?
  }

  /** A branch, a tag, a remote-tracking branch or a ref of this framework. */
  ghost predicate Keeper(ref: string) {
    exists name :: KeeperNamed(ref, name)
  }

  predicate KeeperNamed(ref: string, name: string) {
    ref == "refs/heads/" + name || ref == "refs/tags/" + name || ref == "refs/remotes/" + name || ref == "refs/kdevops/" + name
  }

  lemma CountedExactly(ref: string)
    ensures Counted(ref) <==> Keeper(ref)
  {
    if "refs/heads/" <= ref {
      assert KeeperNamed(ref, ref[|"refs/heads/"|..]);
    } else if "refs/tags/" <= ref {
      assert KeeperNamed(ref, ref[|"refs/tags/"|..]);
    } else if "refs/remotes/" <= ref {
      assert KeeperNamed(ref, ref[|"refs/remotes/"|..]);
    } else if "refs/kdevops/" <= ref {
      assert KeeperNamed(ref, ref[|"refs/kdevops/"|..]);
    }
  }

  /** Some commit of this history would be reached by no such ref. */
  ghost predicate OnlyHere(repo: Repo, head: Commit)
    requires repo.Valid() && head < |repo.history|
  {
    exists a :: a in Ancestors(repo.history, head) && !ReachedByKeeper(repo, a)
  }

  ghost predicate ReachedByKeeper(repo: Repo, a: Commit)
    requires repo.Valid()
  {
    exists r :: r in repo.refs && Keeper(r) && a in Ancestors(repo.history, repo.refs[r])
  }

  lemma OrphansExactly(repo: Repo, head: Commit)
    requires repo.Valid() && head < |repo.history|
    ensures Orphans(repo, head) <==> OnlyHere(repo, head)
  {
    forall r
      ensures Counted(r) <==> Keeper(r)
    {
      CountedExactly(r);
    }
    hide Counted, Keeper;
  }

  /** What keeps a tree from being removed. */
  ghost predicate RemovalReason(repo: Repo, path: Path, w: Weather, reason: Reason)
    requires repo.Valid() && Ours(repo, path)
  {
    var head := HeadAt(repo, path);
    match reason
    case UnknownOrphans => head.Some? && !w.revList
    case WouldOrphan => head.Some? && w.revList && OnlyHere(repo, head.value)
    case RemoveRefused =>
      && (head.Some? ==> w.revList && !OnlyHere(repo, head.value))
      && (!w.remove || exists f :: Dirty(repo, repo.sites[path], f))
    case _ => false
  }

  /** What keeps a tree from being brought along. */
  ghost predicate StayReason(repo: Repo, path: Path, target: Commit, w: Weather, reason: Reason)
    requires repo.Valid() && target < |repo.history| && Ours(repo, path)
  {
    var s, head := repo.sites[path], HeadAt(repo, path);
    match reason
    case BranchNeverMoved(b) => s.head == OnBranch(b) && head.Some? && head != Some(target)
    case NoFastForward =>
      && head != Some(target) && (s.head.OnBranch? ==> head.None?)
      && !(&& w.merge && (head.Some? ==> head.value in Ancestors(repo.history, target))
           && !Collides(repo, s, repo.snapshots[target]))
    case _ => false
  }

  /** Why a sync declines. */
  ghost predicate Why(repo: Repo, path: Path, target: Commit, recreate: bool, w: Weather, reason: Reason)
    requires repo.Valid() && target < |repo.history|
  {
    match reason
    case NotOurs => path in repo.sites && repo.sites[path].Foreign?
    case InProgress(op) => path in repo.sites && repo.sites[path].Checkout? && repo.sites[path].operation == Some(op)
    case AddRefused =>
      || (path in repo.sites && repo.sites[path].Missing?)
      || (path !in repo.sites && !w.add)
      || (Ours(repo, path) && recreate && CanRemove(repo, path, w) && !w.add)
    case _ =>
      Ours(repo, path) && if recreate then RemovalReason(repo, path, w, reason) else StayReason(repo, path, target, w, reason)
  }

  lemma RemovalReasonExactly(repo: Repo, path: Path, w: Weather, reason: Reason)
    requires repo.Valid() && Ours(repo, path)
    ensures RemoveWorktree(repo, path, w).0 == Some(reason) <==> RemovalReason(repo, path, w, reason)
  {
    var s, head := repo.sites[path], HeadAt(repo, path);
    if head.Some? {
      OrphansExactly(repo, head.value);
    }
    assert Clean(repo, s) <==> !exists f :: Dirty(repo, s, f) by {
      assert forall f :: Dirty(repo, s, f) ==> f in Files(repo, s);
    }
    hide Orphans, OnlyHere, Dirty, Clean;
  }

  lemma StayReasonExactly(repo: Repo, path: Path, ref: string, target: Commit, w: Weather, reason: Reason)
    requires repo.Valid() && target < |repo.history| && Ours(repo, path)
    ensures Bring(repo, path, ref, target, w).reason == Some(reason) <==> StayReason(repo, path, target, w, reason)
  {
    if HeadAt(repo, path) != Some(target) && AttachedBranch(repo, path).None? {
      AdvancesExactly(repo, path, target, w.merge);
    }
    hide Collides, MergeFastForward, CheckoutBranch;
  }

  /** A sync gives a reason exactly when it is so. */
  lemma SyncReasonExactly(repo: Repo, path: Path, ref: string, target: Commit, recreate: bool, w: Weather, reason: Reason)
    requires repo.Valid() && target < |repo.history|
    ensures Sync(repo, path, ref, target, recreate, w).reason == Some(reason) <==> Why(repo, path, target, recreate, w, reason)
  {
    if !Occupied(repo, path) {
      LayFreshSucceedsExactly(repo, path, ref, target, w);
    } else if Ours(repo, path) {
      if recreate {
        RemovalReasonExactly(repo, path, w, reason);
        RemoveSucceedsExactly(repo, path, w);
        RemoveFrame(repo, path, w);
        LayFreshSucceedsExactly(RemoveWorktree(repo, path, w).1, path, ref, target, w);
      } else {
        StayReasonExactly(repo, path, ref, target, w, reason);
      }
    }
    hide RemoveWorktree, Bring, RemovalReason, StayReason, CanRemove;
  }

  // ----- a tree left as it was ----------------------------------------------------

  /** A sync that declines changes nothing, unless it had removed the tree already when git
      refused to lay it again. */
  lemma DeclineChangesNothingExactly(repo: Repo, path: Path, ref: string, target: Commit, recreate: bool, w: Weather)
    requires repo.Valid() && target < |repo.history|
    requires Sync(repo, path, ref, target, recreate, w).reason.Some?
    ensures Sync(repo, path, ref, target, recreate, w).repo == repo <==>
              !(Ours(repo, path) && recreate && CanRemove(repo, path, w) && !w.add)
  {
    if Ours(repo, path) {
      if recreate {
        RemoveSucceedsExactly(repo, path, w);
        RemoveFrame(repo, path, w);
        LayFreshSucceedsExactly(RemoveWorktree(repo, path, w).1, path, ref, target, w);
      } else if HeadAt(repo, path) != Some(target) && AttachedBranch(repo, path).None? {
        AdvancesExactly(repo, path, target, w.merge);
      }
    }
    hide CanRemove, MergeFastForward, RemoveWorktree, Collides;
  }

  /** A clean tree of a commit its branch holds, recreated when git will not lay it again: the
      tree is gone. */
  lemma RecreateCanLeaveNoTree(path: Path, branch: string, ref: string)
    ensures var s := Checkout(OnBranch(branch), map[], map[], None);
            var repo := Repo([{}], [map[]], map[BranchRef(branch) := 0], map[path := s], {});
            && repo.Valid()
            && var r := Sync(repo, path, ref, 0, true, FAIR.(add := false));
               r.reason == Some(AddRefused) && path !in r.repo.sites
  {
    var s := Checkout(OnBranch(branch), map[], map[], None);
    var repo, w := Repo([{}], [map[]], map[BranchRef(branch) := 0], map[path := s], {}), FAIR.(add := false);
    assert HeadAt(repo, path) == Some(0) && Counted(BranchRef(branch));
    assert Ancestors(repo.history, 0) == {0} && !Orphans(repo, 0);
    assert CanRemove(repo, path, w);
    RemoveSucceedsExactly(repo, path, w);
    RemoveFrame(repo, path, w);
    LayFreshSucceedsExactly(RemoveWorktree(repo, path, w).1, path, ref, 0, w);
  }
}
