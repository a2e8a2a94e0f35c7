/** What moving a checkout to another commit does to one file: the table of git-read-tree(1),
    section "Two Tree Merge", row by row, and what `git status` calls an edit. */
module TwoTree {
  import opened Wrappers
  import opened Worktree

  /** Keep the index and the disk, take the target's file for both, or refuse. */
  datatype Row = Keep | Take | Fail

  /** A file by what HEAD, the target, the index and the disk have of it. */
  datatype FileState = FileState(
    head: Option<Content>, target: Option<Content>, index: Option<Content>, disk: Option<Content>, ignored: bool)

  /** The rows with nothing in the index, then those with an entry. "Clean" means that the disk
      has the entry or has no file. */
  function RowOf(x: FileState): Row {
    if x.index.None? then
      if x.head == x.target then Keep
      else if x.head.Some? && x.target.Some? then Fail
      else if x.disk.Some? && !x.ignored then Fail
      else if x.target.None? then Keep else Take
    else if x.head == x.target || x.index == x.target then Keep
    else if x.index == x.head && (x.disk == x.index || x.disk.None?) then Take
    else Fail
  }

  function StateOf(repo: Repo, s: Site, to: map<File, Content>, f: File): FileState
    requires repo.Valid() && s.Checkout?
  {
    FileState(Get(repo.Snapshot(repo.Tip(s.head)), f), Get(to, f), Get(s.index, f), Get(s.work, f), f in repo.ignored)
  }

  /** A file stands in the way exactly when its row says so, and a move that goes through leaves
      every file as its row says. */
  lemma RowExactly(repo: Repo, s: Site, head: Head, to: map<File, Content>, f: File)
    requires repo.Valid() && s.Checkout?
    ensures Blocks(repo, s, to, f) <==> RowOf(StateOf(repo, s, to, f)).Fail?
    ensures var x, r := StateOf(repo, s, to, f), MoveTo(repo, s, head, to);
            && (RowOf(x).Keep? ==> Get(r.index, f) == x.index && Get(r.work, f) == x.disk)
            && (RowOf(x).Take? ==> Get(r.index, f) == Get(r.work, f) == x.target)
  {
  }

  /** Some file stands in the way exactly when the move is refused. */
  lemma CollidesExactly(repo: Repo, s: Site, to: map<File, Content>)
    requires repo.Valid() && s.Checkout?
    ensures Collides(repo, s, to) <==> exists f :: RowOf(StateOf(repo, s, to, f)).Fail?
  {
    forall f
      ensures Blocks(repo, s, to, f) <==> RowOf(StateOf(repo, s, to, f)).Fail?
      ensures Blocks(repo, s, to, f) ==> f in Files(repo, s) + to.Keys
    {
      RowExactly(repo, s, s.head, to, f);
    }
  }

  /** A file counts as edited when its index entry is not HEAD's, when the disk has not what the
      entry has, or when it is on disk, not in the index and not ignored. */
  lemma DirtyExactly(repo: Repo, s: Site, f: File)
    requires repo.Valid() && s.Checkout?
    ensures var x := StateOf(repo, s, map[], f);
            Dirty(repo, s, f) <==>
              || x.index != x.head
              || (x.index.Some? && x.disk != x.index)
              || (x.index.None? && x.disk.Some? && !x.ignored)
  {
  }

  /** The deletions a move overlooks are the files it takes though they are not on disk. */
  lemma OverlookedExactly(repo: Repo, s: Site, to: map<File, Content>, f: File)
    requires repo.Valid() && s.Checkout?
    ensures var x := StateOf(repo, s, to, f);
            Overlooked(repo, s, to, f) <==> RowOf(x).Take? && x.index.Some? && x.disk.None?
  {
  }
}
