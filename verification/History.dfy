/** Commit history as git sees it: a finite acyclic graph whose edges lead from a
    commit to its parents. Commits are numbered so that a parent always has a smaller
    number than its child, which every finite acyclic graph admits. */
module History {

  type Commit = nat

  /** Entry `c` holds the parents of commit `c`. */
  type Dag = g: seq<set<Commit>> | forall c, p :: 0 <= c < |g| && p in g[c] ==> p < c

  /** The commits `git rev-list c` walks: `c` and everything it descends from. */
  function Ancestors(g: Dag, c: Commit): (r: set<Commit>)
    requires c < |g|
    ensures c in r && forall a :: a in r ==> a <= c
  {
    {c} + set p, a | p in g[c] && a in Ancestors(g, p) :: a
  }

  /** The union of the histories of several tips. */
  function Reachable(g: Dag, tips: set<Commit>): set<Commit>
    requires forall t :: t in tips ==> t < |g|
  {
    set t, a | t in tips && a in Ancestors(g, t) :: a
  }

  /** Independent reading of ancestry: a chain of child-to-parent edges. */
  ghost predicate IsPath(g: Dag, p: seq<Commit>) {
    && |p| > 0
    && (forall i :: 0 <= i < |p| ==> p[i] < |g|)
    && forall i, j :: 0 <= i < j < |p| && j == i + 1 ==> p[j] in g[p[i]]
  }

  ghost predicate Linked(g: Dag, p: seq<Commit>, from: Commit, to: Commit) {
    IsPath(g, p) && p[0] == from && p[|p| - 1] == to
  }

  /** A chain of parent edges never leaves the history of its first commit. */
  lemma {:induction false} PathStaysInAncestors(g: Dag, p: seq<Commit>)
    requires IsPath(g, p)
    ensures p[|p| - 1] in Ancestors(g, p[0])
  {
    if |p| > 1 {
      assert p[1] in g[p[0]];
      PathStaysInAncestors(g, p[1..]);
    }
  }

  /** Every commit of a history is joined to its tip by a chain of parent edges. */
  lemma {:induction false} AncestorHasPath(g: Dag, c: Commit, a: Commit) returns (p: seq<Commit>)
    requires c < |g| && a in Ancestors(g, c)
    ensures Linked(g, p, c, a)
    decreases c
  {
    if a == c {
      p := [c];
    } else {
      var parent :| parent in g[c] && a in Ancestors(g, parent);
      var tail := AncestorHasPath(g, parent, a);
      p := [c] + tail;
    }
  }

  /** `Ancestors` is exactly reachability along parent edges. */
  lemma AncestorsAreThePaths(g: Dag, c: Commit, a: Commit)
    requires c < |g|
    ensures a in Ancestors(g, c) <==> exists p :: Linked(g, p, c, a)
  {
    if a in Ancestors(g, c) {
      var p := AncestorHasPath(g, c, a);
    }
    forall p | Linked(g, p, c, a)
      ensures a in Ancestors(g, c)
    {
      PathStaysInAncestors(g, p);
    }
  }

  lemma {:induction false} AncestorsTransitive(g: Dag, c: Commit, b: Commit)
    requires c < |g| && b in Ancestors(g, c)
    ensures Ancestors(g, b) <= Ancestors(g, c)
    decreases c
  {
    if b != c {
      var parent :| parent in g[c] && b in Ancestors(g, parent);
      AncestorsTransitive(g, parent, b);
    }
  }

  /** Moving a tip forward along its own history loses nothing. */
  lemma ReachableGrows(g: Dag, old_: set<Commit>, new_: set<Commit>)
    requires forall t :: t in old_ ==> t < |g|
    requires forall t :: t in new_ ==> t < |g|
    requires forall t :: t in old_ ==> t in Reachable(g, new_)
    ensures Reachable(g, old_) <= Reachable(g, new_)
  {
    forall a | a in Reachable(g, old_)
      ensures a in Reachable(g, new_)
    {
      var t :| t in old_ && a in Ancestors(g, t);
      var n :| n in new_ && t in Ancestors(g, n);
      AncestorsTransitive(g, n, t);
    }
  }
}
