/** The developer worktree sync of f/common/worktree.py: `_sync` and the git commands it
    issues. A git command is a step that may refuse, either because of what it finds or
    for a reason of its own (`Weather`); a refused command leaves everything as it was. */
module Worktree {
  import opened Wrappers
  import opened History

  type Path = string
  type File = string
  type Content = string

  datatype Head = OnBranch(branch: string) | DetachedAt(commit: Commit)

  datatype Operation = GitAm | Rebase | CherryPick | Revert | Merge | Bisect

  /** What sits at a path. A path outside the map holds nothing or an empty directory. */
  datatype Site =
    | Foreign(foreignHead: Option<Commit>)
      // occupied, and not a worktree of this Bare
    | Checkout(head: Head, index: map<File, Content>, work: map<File, Content>, operation: Option<Operation>)
    | Missing(head: Head)
      // still registered with the Bare, but the directory is gone or empty

  datatype Repo = Repo(
    history: Dag,
    snapshots: seq<map<File, Content>>,
    refs: map<string, Commit>,
    sites: map<Path, Site>,
    ignored: set<File>)
  {
    ghost predicate Valid() {
      && |snapshots| == |history|
      && (forall r :: r in refs ==> refs[r] < |history|)
      && forall p :: p in sites && !sites[p].Foreign? && sites[p].head.DetachedAt? ==>
           sites[p].head.commit < |history|
    }

    /** `rev-parse HEAD` of one head: None for a branch yet to be born. */
    function Tip(head: Head): (c: Option<Commit>)
      requires Valid()
      ensures head.DetachedAt? && head.commit < |history| ==> c == Some(head.commit)
    {
      match head
      case OnBranch(b) => Get(refs, BranchRef(b))
      case DetachedAt(c) => Some(c)
    }

    function Snapshot(c: Option<Commit>): map<File, Content>
      requires Valid()
    {
      if c.Some? && c.value < |snapshots| then snapshots[c.value] else map[]
    }

    predicate Held(branch: string) {
      exists p :: p in sites && !sites[p].Foreign? && sites[p].head == OnBranch(branch)
    }

    /** Every commit a ref names or a worktree HEAD rests on. */
    ghost function Tips(): (t: set<Commit>)
      requires Valid()
      ensures forall c :: c in t ==> c < |history|
    {
      (set r | r in refs :: refs[r]) +
      (set p | p in sites && !sites[p].Foreign? && Tip(sites[p].head).Some? :: Tip(sites[p].head).value)
    }

    ghost function Live(): set<Commit>
      requires Valid()
    {
      Reachable(history, Tips())
    }
  }

  function BranchRef(branch: string): string {
    "refs/heads/" + branch
  }

  // ----- one checkout -------------------------------------------------------------

  predicate Staged(base: map<File, Content>, s: Site, f: File)
    requires s.Checkout?
  {
    Get(s.index, f) != Get(base, f)
  }

  predicate Modified(s: Site, f: File)
    requires s.Checkout?
  {
    f in s.index && Get(s.work, f) != Get(s.index, f)
  }

  predicate Untracked(ignored: set<File>, s: Site, f: File)
    requires s.Checkout?
  {
    f in s.work && f !in s.index && f !in ignored
  }

  predicate Dirty(repo: Repo, s: Site, f: File)
    requires repo.Valid() && s.Checkout?
  {
    Staged(repo.Snapshot(repo.Tip(s.head)), s, f) || Modified(s, f) || Untracked(repo.ignored, s, f)
  }

  /** The files git has an opinion about: tracked at HEAD, in the index or on disk. */
  function Files(repo: Repo, s: Site): set<File>
    requires repo.Valid() && s.Checkout?
  {
    repo.Snapshot(repo.Tip(s.head)).Keys + s.index.Keys + s.work.Keys
  }

  predicate Clean(repo: Repo, s: Site)
    requires repo.Valid() && s.Checkout?
  {
    forall f :: f in Files(repo, s) ==> !Dirty(repo, s, f)
  }

  /** What stands in the way of moving a checkout from one snapshot to another, as in
      git-read-tree(1), section "Two Tree Merge": where the two differ, an untracked file, or
      an index entry that is not the new one already and that was staged or is changed on
      disk. A file missing from the disk counts as unchanged. */
  predicate Blocks(repo: Repo, s: Site, to: map<File, Content>, f: File)
    requires repo.Valid() && s.Checkout?
  {
    var from := repo.Snapshot(repo.Tip(s.head));
    && Get(from, f) != Get(to, f)
    && (|| Untracked(repo.ignored, s, f)
        || (Get(s.index, f) != Get(to, f) && (Staged(from, s, f) || (f in s.work && Modified(s, f)))))
  }

  predicate Collides(repo: Repo, s: Site, to: map<File, Content>)
    requires repo.Valid() && s.Checkout?
  {
    exists f :: f in Files(repo, s) + to.Keys && Blocks(repo, s, to, f)
  }

  function Changed(from: map<File, Content>, to: map<File, Content>): (r: set<File>)
    ensures forall f :: f in r <==> Get(from, f) != Get(to, f)
  {
    set f | f in from.Keys + to.Keys && Get(from, f) != Get(to, f)
  }

  /** `old_` with the given files brought to `to`. */
  function Rewrite(old_: map<File, Content>, to: map<File, Content>, files: set<File>): (r: map<File, Content>)
    ensures forall f :: Get(r, f) == if f in files then Get(to, f) else Get(old_, f)
  {
    map f | f in old_.Keys + to.Keys && (if f in files then f in to else f in old_)
      :: if f in files then to[f] else old_[f]
  }

  /** A file already staged as `to` has it keeps what is on disk. */
  function MoveTo(repo: Repo, s: Site, head: Head, to: map<File, Content>): (r: Site)
    requires repo.Valid() && s.Checkout?
    ensures r.Checkout? && r.head == head && r.operation == s.operation
  {
    var changed := Changed(repo.Snapshot(repo.Tip(s.head)), to);
    Checkout(head, Rewrite(s.index, to, changed), Rewrite(s.work, to, changed * Changed(s.index, to)), s.operation)
  }

  /** An unstaged deletion that such a move does not see: the file changes, its index entry is
      still that of HEAD, and on disk it is gone. */
  predicate Overlooked(repo: Repo, s: Site, to: map<File, Content>, f: File)
    requires repo.Valid() && s.Checkout?
  {
    var from := repo.Snapshot(repo.Tip(s.head));
    Get(from, f) != Get(to, f) && f in s.index && f !in s.work && !Staged(from, s, f)
  }

  // ----- the git commands ---------------------------------------------------------

  /** `git worktree add` without --force. */
  function WorktreeAdd(repo: Repo, path: Path, head: Head, permit: bool): (r: (bool, Repo))
    requires repo.Valid() && (head.DetachedAt? ==> head.commit < |repo.history|)
    ensures r.1.Valid()
  {
    if permit && path !in repo.sites && repo.Tip(head).Some? && (head.OnBranch? ==> !repo.Held(head.branch)) then
      var files := repo.Snapshot(repo.Tip(head));
      (true, repo.(sites := repo.sites[path := Checkout(head, files, files, None)]))
    else
      (false, repo)
  }

  /** `git worktree remove` without --force: a modified, staged or untracked file refuses
      it; ignored files go with the tree. */
  function WorktreeRemove(repo: Repo, path: Path, permit: bool): (r: (bool, Repo))
    requires repo.Valid()
    requires path in repo.sites && repo.sites[path].Checkout?
    ensures r.1.Valid()
  {
    if permit && Clean(repo, repo.sites[path])
    then (true, repo.(sites := repo.sites - {path}))
    else (false, repo)
  }

  /** `git merge --ff-only <target>`. It reports success for a target already behind HEAD,
      moves whatever HEAD names otherwise, and gives birth to an unborn branch. */
  function MergeFastForward(repo: Repo, path: Path, target: Commit, permit: bool): (r: (bool, Repo))
    requires repo.Valid() && target < |repo.history|
    requires path in repo.sites && repo.sites[path].Checkout?
    ensures r.1.Valid()
  {
    var s := repo.sites[path];
    var tip := repo.Tip(s.head);
    if tip.Some? && target in Ancestors(repo.history, tip.value) then
      (true, repo)
    else if permit && (tip.Some? ==> tip.value in Ancestors(repo.history, target))
         && !Collides(repo, s, repo.snapshots[target]) then
      match s.head
      case OnBranch(b) =>
        (true, repo.(refs := repo.refs[BranchRef(b) := target],
                     sites := repo.sites[path := MoveTo(repo, s, s.head, repo.snapshots[target])]))
      case DetachedAt(_) =>
        (true, repo.(sites := repo.sites[path := MoveTo(repo, s, DetachedAt(target), repo.snapshots[target])]))
    else
      (false, repo)
  }

  /** `git checkout <branch>` without --force, -B or --ignore-other-worktrees. */
  function CheckoutBranch(repo: Repo, path: Path, branch: string, permit: bool): (r: (bool, Repo))
    requires repo.Valid()
    requires path in repo.sites && repo.sites[path].Checkout?
    ensures r.1.Valid()
  {
    var s := repo.sites[path];
    var tip := Get(repo.refs, BranchRef(branch));
    if permit && tip.Some? && !repo.Held(branch) && !Collides(repo, s, repo.Snapshot(tip))
    then (true, repo.(sites := repo.sites[path := MoveTo(repo, s, OnBranch(branch), repo.Snapshot(tip))]))
    else (false, repo)
  }

  // ----- the probes ---------------------------------------------------------------

  function HeadAt(repo: Repo, path: Path): Option<Commit>
    requires repo.Valid()
  {
    if path !in repo.sites then None else
    match repo.sites[path]
    case Foreign(h) => h
    case Checkout(h, _, _, _) => repo.Tip(h)
    case Missing(_) => None
  }

  predicate Occupied(repo: Repo, path: Path) {
    path in repo.sites && !repo.sites[path].Missing?
  }

  /** The branch HEAD is attached to. An unborn branch does not resolve, so it reads as
      detached. */
  function AttachedBranch(repo: Repo, path: Path): Option<string>
    requires repo.Valid() && path in repo.sites && repo.sites[path].Checkout?
  {
    match repo.sites[path].head
    case OnBranch(b) => if BranchRef(b) in repo.refs then Some(b) else None
    case DetachedAt(_) => None
  }

  function AttachableBranch(repo: Repo, ref: string, target: Commit): Option<string> {
    if Get(repo.refs, BranchRef(ref)) == Some(target) && !repo.Held(ref) then Some(ref) else None
  }

  predicate Counted(ref: string) {
    "refs/heads/" <= ref || "refs/tags/" <= ref || "refs/remotes/" <= ref || "refs/kdevops/" <= ref
  }

  /** `rev-list <head> --not --branches --tags --remotes`, plus the refs under refs/kdevops. */
  predicate Orphans(repo: Repo, head: Commit)
    requires repo.Valid() && head < |repo.history|
  {
    exists a :: a in Ancestors(repo.history, head) &&
      forall r :: r in repo.refs && Counted(r) ==> a !in Ancestors(repo.history, repo.refs[r])
  }

  // ----- _remove_worktree and _sync -----------------------------------------------

  /** Whether each command goes through when nothing in the repository stands against it. */
  datatype Weather = Weather(revList: bool, remove: bool, add: bool, merge: bool, checkout: bool)

  datatype Reason =
    | NotOurs
    | InProgress(operation: Operation)
    | UnknownOrphans
    | WouldOrphan
    | RemoveRefused
    | AddRefused
    | BranchNeverMoved(branch: string)
    | NoFastForward

  datatype Synced = Synced(reason: Option<Reason>, commit: Option<Commit>, repo: Repo)

  function RemoveWorktree(repo: Repo, path: Path, w: Weather): (r: (Option<Reason>, Repo))
    requires repo.Valid()
    requires path in repo.sites && repo.sites[path].Checkout?
    ensures r.1.Valid() && r.1.history == repo.history && (r.0.Some? ==> r.1 == repo)
  {
    var head := HeadAt(repo, path);
    if head.Some? && !w.revList then (Some(UnknownOrphans), repo)
    else if head.Some? && Orphans(repo, head.value) then (Some(WouldOrphan), repo)
    else
      var (ok, after) := WorktreeRemove(repo, path, w.remove);
      if ok then (None, after) else (Some(RemoveRefused), repo)
  }

  function LayFresh(repo: Repo, path: Path, ref: string, target: Commit, w: Weather): Synced
    requires repo.Valid() && target < |repo.history|
  {
    var branch := AttachableBranch(repo, ref, target);
    var head := if branch.Some? then OnBranch(branch.value) else DetachedAt(target);
    var (ok, after) := WorktreeAdd(repo, path, head, w.add);
    if ok then Synced(None, HeadAt(after, path), after) else Synced(Some(AddRefused), None, repo)
  }

  function Bring(repo: Repo, path: Path, ref: string, target: Commit, w: Weather): Synced
    requires repo.Valid() && target < |repo.history|
    requires path in repo.sites && repo.sites[path].Checkout?
  {
    var head := HeadAt(repo, path);
    var attached := AttachedBranch(repo, path);
    if head != Some(target) then
      if attached.Some? then Synced(Some(BranchNeverMoved(attached.value)), head, repo)
      else
        var after := MergeFastForward(repo, path, target, w.merge).1;
        var moved := HeadAt(after, path);
        if moved != Some(target) then Synced(Some(NoFastForward), moved, after) else Synced(None, moved, after)
    else if attached.Some? then Synced(None, head, repo)
    else
      var branch := AttachableBranch(repo, ref, target);
      if branch.None? then Synced(None, head, repo)
      else Synced(None, head, CheckoutBranch(repo, path, branch.value, w.checkout).1)
  }

  function Sync(repo: Repo, path: Path, ref: string, target: Commit, recreate: bool, w: Weather): Synced
    requires repo.Valid() && target < |repo.history|
  {
    if !Occupied(repo, path) then LayFresh(repo, path, ref, target, w)
    else
      match repo.sites[path]
      case Foreign(_) => Synced(Some(NotOurs), HeadAt(repo, path), repo)
      case Checkout(_, _, _, operation) =>
        if operation.Some? then Synced(Some(InProgress(operation.value)), HeadAt(repo, path), repo)
        else if !recreate then Bring(repo, path, ref, target, w)
        else
          var (reason, after) := RemoveWorktree(repo, path, w);
          if reason.Some? then Synced(reason, HeadAt(repo, path), repo)
          else LayFresh(after, path, ref, target, w)
  }
}
