/** `_sync` as it runs: command by command against the Bare on disk, each command reading
    what the one before it left. */
module DeveloperTree {
  import opened Wrappers
  import opened History
  import opened Worktree
  import Safety = WorktreeSafety

  class Bare {
    var repo: Repo

    constructor (repo: Repo)
      ensures this.repo == repo
    {
      this.repo := repo;
    }

    method Remove(path: Path, permit: bool) returns (ok: bool)
      requires repo.Valid() && path in repo.sites && repo.sites[path].Checkout?
      modifies this
      ensures (ok, repo) == WorktreeRemove(old(repo), path, permit)
    {
      ok := permit && Clean(repo, repo.sites[path]);
      if ok {
        repo := repo.(sites := repo.sites - {path});
      }
    }

    method Add(path: Path, head: Head, permit: bool) returns (ok: bool)
      requires repo.Valid() && (head.DetachedAt? ==> head.commit < |repo.history|)
      modifies this
      ensures (ok, repo) == WorktreeAdd(old(repo), path, head, permit)
    {
      var result := WorktreeAdd(repo, path, head, permit);
      ok, repo := result.0, result.1;
    }

    method Merge(path: Path, target: Commit, permit: bool) returns (ok: bool)
      requires repo.Valid() && target < |repo.history|
      requires path in repo.sites && repo.sites[path].Checkout?
      modifies this
      ensures (ok, repo) == MergeFastForward(old(repo), path, target, permit)
    {
      var result := MergeFastForward(repo, path, target, permit);
      ok, repo := result.0, result.1;
    }

    method Checkout(path: Path, branch: string, permit: bool) returns (ok: bool)
      requires repo.Valid() && path in repo.sites && repo.sites[path].Checkout?
      modifies this
      ensures (ok, repo) == CheckoutBranch(old(repo), path, branch, permit)
    {
      var result := CheckoutBranch(repo, path, branch, permit);
      ok, repo := result.0, result.1;
    }

    method RemoveTree(path: Path, w: Weather) returns (reason: Option<Reason>)
      requires repo.Valid() && path in repo.sites && repo.sites[path].Checkout?
      modifies this
      ensures (reason, repo) == RemoveWorktree(old(repo), path, w)
    {
      var head := HeadAt(repo, path);
      if head.Some? {
        if !w.revList {
          return Some(UnknownOrphans);
        }
        if Orphans(repo, head.value) {
          return Some(WouldOrphan);
        }
      }
      var ok := Remove(path, w.remove);
      reason := if ok then None else Some(RemoveRefused);
    }

    method Lay(path: Path, ref: string, target: Commit, w: Weather)
      returns (reason: Option<Reason>, commit: Option<Commit>)
      requires repo.Valid() && target < |repo.history|
      modifies this
      ensures Synced(reason, commit, repo) == LayFresh(old(repo), path, ref, target, w)
    {
      var branch := AttachableBranch(repo, ref, target);
      var added := Add(path, if branch.Some? then OnBranch(branch.value) else DetachedAt(target), w.add);
      if !added {
        return Some(AddRefused), None;
      }
      return None, HeadAt(repo, path);
    }

    method BringAlong(path: Path, ref: string, target: Commit, w: Weather)
      returns (reason: Option<Reason>, commit: Option<Commit>)
      requires repo.Valid() && target < |repo.history|
      requires path in repo.sites && repo.sites[path].Checkout?
      modifies this
      ensures Synced(reason, commit, repo) == Bring(old(repo), path, ref, target, w)
    {
      var head, attached := HeadAt(repo, path), AttachedBranch(repo, path);
      if head != Some(target) {
        if attached.Some? {
          return Some(BranchNeverMoved(attached.value)), head;
        }
        var _ := Merge(path, target, w.merge);
        var moved := HeadAt(repo, path);
        if moved != Some(target) {
          return Some(NoFastForward), moved;
        }
        return None, moved;
      }
      if attached.Some? {
        return None, head;
      }
      var branch := AttachableBranch(repo, ref, target);
      if branch.None? {
        return None, head;
      }
      var _ := Checkout(path, branch.value, w.checkout);
      return None, head;
    }

    /** Besides following the specification, a sync reports the tree's real HEAD and keeps
        everything a developer holds but the deletions it overlooks. */
    method SyncTree(path: Path, ref: string, target: Commit, recreate: bool, w: Weather)
      returns (reason: Option<Reason>, commit: Option<Commit>)
      requires repo.Valid() && target < |repo.history|
      modifies this
      ensures Synced(reason, commit, repo) == Sync(old(repo), path, ref, target, recreate, w)
      ensures repo.Valid() && commit == HeadAt(repo, path) && (reason.None? ==> commit == Some(target))
      ensures forall t :: Safety.Holds(old(repo), t) ==>
                (Safety.Holds(repo, t) <==> !Safety.SyncDrops(old(repo), path, target, recreate, w, t))
    {
      Safety.SyncHonest(repo, path, ref, target, recreate, w);
      Safety.SyncKeepsAll(repo, path, ref, target, recreate, w);
      hide LayFresh, Bring, RemoveWorktree, HeadAt, Safety.Holds, Safety.SyncDrops;
      if Occupied(repo, path) {
        if repo.sites[path].Foreign? {
          return Some(NotOurs), HeadAt(repo, path);
        }
        if repo.sites[path].operation.Some? {
          return Some(InProgress(repo.sites[path].operation.value)), HeadAt(repo, path);
        }
        if recreate {
          Safety.RemoveFrame(repo, path, w);
          reason := RemoveTree(path, w);
          if reason.Some? {
            return reason, HeadAt(repo, path);
          }
        }
      }
      if !Occupied(repo, path) {
        reason, commit := Lay(path, ref, target, w);
      } else {
        reason, commit := BringAlong(path, ref, target, w);
      }
    }
  }
}
