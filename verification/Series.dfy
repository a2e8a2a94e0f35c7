/** Publishing a mailed series: `_publish_b4_branch` of f/common/worktree.py, the effective
    ref f/nix/prepare_overrides.py derives from it, and the two resolvers that read the ref
    back, `_resolve_ref` and `qualify_ref` of f/common/gitrefs.py. */
module Series {
  import opened Wrappers
  import opened History

  type Refs = map<string, Commit>

  /** One `prepare` of an override: the slug of its series, the commit `git am` left at HEAD
      and whether git lets `update-ref` through. */
  datatype Publication = Publication(slug: string, head: Commit, permit: bool)

  function Branch(slug: string): string { "b4/" + slug }
  function BranchRef(slug: string): string { "refs/heads/" + Branch(slug) }
  function Anchor(slug: string): string { "refs/kdevops/" + Branch(slug) }

  /** `_publish_b4_branch`: create the branch once, else anchor this run's commit. */
  function Publish(refs: Refs, p: Publication): (Option<string>, Refs) {
    var existing := Get(refs, BranchRef(p.slug));
    if existing == Some(p.head) then (Some(Branch(p.slug)), refs)
    else if existing.Some? then (None, if p.permit then refs[Anchor(p.slug) := p.head] else refs)
    else if p.permit then (Some(Branch(p.slug)), refs[BranchRef(p.slug) := p.head])
    else (None, refs)
  }

  /** The branch is returned exactly when it rests on the commit already, or there is none and
      git makes it. At most one ref is set, to the commit: the branch where there was none, else
      the anchor. */
  lemma PublishExactly(refs: Refs, p: Publication)
    ensures var (branch, after) := Publish(refs, p); var ref := "refs/heads/b4/" + p.slug;
            && (branch == Some("b4/" + p.slug) <==> if ref in refs then refs[ref] == p.head else p.permit)
            && (branch.Some? ==> branch.value == "b4/" + p.slug && Get(after, ref) == Some(p.head))
            && after == if !p.permit || Get(refs, ref) == Some(p.head) then refs
                        else refs[(if ref in refs then "refs/kdevops/b4/" + p.slug else ref) := p.head]
  {
    assert BranchRef(p.slug) == "refs/heads/b4/" + p.slug && Anchor(p.slug) == "refs/kdevops/b4/" + p.slug;
  }

  function PublishAll(refs: Refs, ps: seq<Publication>): Refs
    decreases |ps|
  {
    if ps == [] then refs else PublishAll(Publish(refs, ps[0]).1, ps[1..])
  }

  /** `prepared.get("b4_branch") or prepared["commit"]`. */
  datatype Effective = ByBranch(branch: string) | ByCommit(commit: Commit)

  function EffectiveRef(refs: Refs, p: Publication): Effective {
    match Publish(refs, p).0
    case Some(b) => ByBranch(b)
    case None => ByCommit(p.head)
  }

  /** What an effective ref names in a Bare: a branch through refs/heads, a commit itself. */
  function Denotes(refs: Refs, e: Effective): Option<Commit> {
    match e
    case ByBranch(b) => Get(refs, "refs/heads/" + b)
    case ByCommit(c) => Some(c)
  }

  lemma NamesApart(slug: string, other: string)
    ensures BranchRef(slug) != Anchor(other)
    ensures slug != other ==> BranchRef(slug) != BranchRef(other) && Anchor(slug) != Anchor(other)
  {
    assert BranchRef(slug)[5] == 'h' && Anchor(other)[5] == 'k';
    assert BranchRef(slug)[14..] == slug && BranchRef(other)[14..] == other;
    assert Anchor(slug)[16..] == slug && Anchor(other)[16..] == other;
  }

  /** Over any sequence of publications, whatever their slugs, no existing branch moves. */
  lemma {:induction false} BranchesNeverMove(refs: Refs, ps: seq<Publication>, ref: string)
    requires ref in refs && "refs/heads/" <= ref
    ensures Get(PublishAll(refs, ps), ref) == Some(refs[ref])
    decreases |ps|
  {
    if ps != [] {
      assert Anchor(ps[0].slug)[5] == 'k' && ref[5] == 'h';
      BranchesNeverMove(Publish(refs, ps[0]).1, ps[1..], ref);
    }
  }

  /** The effective ref of a publication denotes the commit just applied, then and after
      any later publications. */
  lemma EffectiveRefStaysExact(refs: Refs, p: Publication, later: seq<Publication>)
    ensures Denotes(Publish(refs, p).1, EffectiveRef(refs, p)) == Some(p.head)
    ensures Denotes(PublishAll(Publish(refs, p).1, later), EffectiveRef(refs, p)) == Some(p.head)
  {
    var after := Publish(refs, p).1;
    if EffectiveRef(refs, p).ByBranch? {
      assert BranchRef(p.slug) == "refs/heads/" + Branch(p.slug);
      BranchesNeverMove(after, later, BranchRef(p.slug));
    }
  }

  // ----- what stays reachable -----------------------------------------------------

  predicate Within(g: Dag, refs: Refs) {
    forall r :: r in refs ==> refs[r] < |g|
  }

  function Live(g: Dag, refs: Refs): set<Commit>
    requires Within(g, refs)
  {
    Reachable(g, refs.Values)
  }

  /** The publication moves an anchor off a commit nothing else reaches. */
  predicate StrandsAnchor(g: Dag, refs: Refs, p: Publication)
    requires Within(g, refs) && p.head < |g|
  {
    && p.permit
    && Get(refs, BranchRef(p.slug)).Some? && refs[BranchRef(p.slug)] != p.head
    && Anchor(p.slug) in refs
    && var old_ := refs[Anchor(p.slug)];
       old_ !in Ancestors(g, p.head)
       && forall r :: r in refs && r != Anchor(p.slug) ==> old_ !in Ancestors(g, refs[r])
  }

  /** A publication keeps every commit the refs reach exactly when it strands no anchor. */
  lemma PublishKeepsReachableExactly(g: Dag, refs: Refs, p: Publication)
    requires Within(g, refs) && p.head < |g|
    ensures Within(g, Publish(refs, p).1)
    ensures Live(g, refs) <= Live(g, Publish(refs, p).1) <==> !StrandsAnchor(g, refs, p)
  {
    var after := Publish(refs, p).1;
    NamesApart(p.slug, p.slug);
    var anchor := Anchor(p.slug);
    if StrandsAnchor(g, refs, p) {
      var old_ := refs[anchor];
      assert old_ in refs.Values && old_ in Ancestors(g, old_);
      assert old_ in Live(g, refs);
      forall t | t in after.Values
        ensures old_ !in Ancestors(g, t)
      {
        var r :| r in after && after[r] == t;
        assert r != anchor ==> r in refs && refs[r] == t;
      }
    } else {
      forall t | t in refs.Values
        ensures t in Live(g, after)
      {
        var r :| r in refs && refs[r] == t;
        assert t in Ancestors(g, t);
        if r in after && after[r] == t {
          assert t in after.Values;
        } else {
          assert r == anchor && after[anchor] == p.head;
          if t in Ancestors(g, p.head) {
            assert p.head in after.Values;
          } else {
            var q :| q in refs && q != anchor && t in Ancestors(g, refs[q]);
            assert after[q] == refs[q] && refs[q] in after.Values;
          }
        }
      }
      ReachableGrows(g, refs.Values, after.Values);
    }
  }

  /** Unless git refuses the update, the commit just applied is reachable from a ref of its
      own: the branch, or the anchor beside a branch that stays where it is. */
  lemma PublishedHeadIsLive(g: Dag, refs: Refs, p: Publication)
    requires Within(g, refs) && p.head < |g| && p.permit
    ensures Within(g, Publish(refs, p).1) && p.head in Live(g, Publish(refs, p).1)
    ensures var after := Publish(refs, p).1;
            Get(after, BranchRef(p.slug)) == Some(p.head) || Get(after, Anchor(p.slug)) == Some(p.head)
    ensures BranchRef(p.slug) in refs ==> Publish(refs, p).1[BranchRef(p.slug)] == refs[BranchRef(p.slug)]
  {
    var after := Publish(refs, p).1;
    NamesApart(p.slug, p.slug);
    var name := if Get(after, BranchRef(p.slug)) == Some(p.head) then BranchRef(p.slug) else Anchor(p.slug);
    assert after[name] == p.head && p.head in after.Values;
    assert p.head in Ancestors(g, p.head);
  }

  /** The code's own account is that a commit a closure names stays reachable under its
      anchor. Three different applications of one series are enough to break it: the second
      is anchored, and the third takes the anchor away. */
  lemma AnchoredCommitCanBeStranded()
    ensures var g: Dag := [{}, {}, {}];
            var refs := PublishAll(map[], [Publication("s", 0, true), Publication("s", 1, true)]);
            && EffectiveRef(Publish(map[], Publication("s", 0, true)).1, Publication("s", 1, true)) == ByCommit(1)
            && Within(g, refs) && 1 in Live(g, refs)
            && var after := Publish(refs, Publication("s", 2, true)).1;
               Within(g, after) && 1 !in Live(g, after)
  {
    var g: Dag := [{}, {}, {}];
    var first, second, third := Publication("s", 0, true), Publication("s", 1, true), Publication("s", 2, true);
    NamesApart("s", "s");
    var one := Publish(map[], first).1;
    assert one == map[BranchRef("s") := 0];
    var two := Publish(one, second).1;
    assert two == one[Anchor("s") := 1];
    assert PublishAll(map[], [first, second]) == PublishAll(one, [second]) == PublishAll(two, []) by {
      assert [first, second][1..] == [second] && [second][1..] == [];
    }
    assert two[Anchor("s")] == 1 && 1 in two.Values && 1 in Ancestors(g, 1);
    var three := Publish(two, third).1;
    assert three == map[BranchRef("s") := 0, Anchor("s") := 2];
    assert forall t :: t in three.Values ==> t == 0 || t == 2;
  }

  // ----- reading the ref back -----------------------------------------------------

  function FirstOf(refs: Refs, names: seq<string>): (r: Option<string>)
    ensures r.Some? ==> r.value in names && r.value in refs
    ensures r.None? ==> forall n :: n in names ==> n !in refs
  {
    if names == [] then None
    else if names[0] in refs then Some(names[0])
    else FirstOf(refs, names[1..])
  }

  /** The places `git rev-parse` looks a name up in, in its order (gitrevisions(7)). */
  function Lookups(name: string): seq<string> {
    [name, "refs/" + name, "refs/tags/" + name, "refs/heads/" + name,
     "refs/remotes/" + name, "refs/remotes/" + name + "/HEAD"]
  }

  /** `_resolve_ref`: an upstream tag, then the mirror, then the literal name. */
  function ResolveOrder(ref: string): seq<string> {
    Lookups("refs/tags/" + ref) + Lookups("mirror/" + ref) + Lookups(ref)
  }

  function ResolvedName(refs: Refs, ref: string): Option<string> {
    FirstOf(refs, ResolveOrder(ref))
  }

  function QualifyOrder(ref: string): seq<string> {
    if "refs/" <= ref then [ref]
    else ["refs/tags/" + ref, "refs/remotes/mirror/" + ref, "refs/heads/" + ref, "refs/remotes/" + ref]
  }

  function QualifiedName(refs: Refs, ref: string): Option<string> {
    FirstOf(refs, QualifyOrder(ref))
  }

  /** A first-match search stops at position k exactly when nothing earlier exists. */
  lemma {:induction false} FirstOfAt(refs: Refs, names: seq<string>, k: nat)
    requires k < |names| && names[k] in refs
    requires forall i :: 0 <= i < k ==> names[i] != names[k]
    ensures FirstOf(refs, names) == Some(names[k]) <==> forall i :: 0 <= i < k ==> names[i] !in refs
    decreases k
  {
    if k > 0 {
      assert names[1..][k - 1] == names[k];
      FirstOfAt(refs, names[1..], k - 1);
      assert (forall i :: 0 <= i < k ==> names[i] !in refs)
        <==> names[0] !in refs && forall i :: 0 <= i < k - 1 ==> names[1..][i] !in refs by {
        assert forall i :: 0 < i < k ==> names[i] == names[1..][i - 1];
      }
    }
  }

  /** A full refname stands for itself; of any other, a tag wins, then the mirror's branch, a
      local branch, any remote-tracking ref. */
  lemma QualifiesExactly(refs: Refs, ref: string)
    ensures var found := QualifiedName(refs, ref);
            var tag, mirror, head, remote := "refs/tags/" + ref, "refs/remotes/mirror/" + ref, "refs/heads/" + ref, "refs/remotes/" + ref;
            if |ref| >= 5 && ref[..5] == "refs/" then found == if ref in refs then Some(ref) else None
            else && (tag in refs ==> found == Some(tag))
                 && (tag !in refs && mirror in refs ==> found == Some(mirror))
                 && (tag !in refs && mirror !in refs && head in refs ==> found == Some(head))
                 && (tag !in refs && mirror !in refs && head !in refs ==> found == if remote in refs then Some(remote) else None)
  {
    var order := QualifyOrder(ref);
    assert "refs/" <= ref <==> |ref| >= 5 && ref[..5] == "refs/";
    assert forall i :: 0 <= i < |order| ==> order[i] in order;
    if !("refs/" <= ref) {
      FirstOfFour(refs, order[0], order[1], order[2], order[3]);
    }
  }

  lemma FirstOfFour(refs: Refs, a: string, b: string, c: string, d: string)
    ensures FirstOf(refs, [a, b, c, d])
         == if a in refs then Some(a) else if b in refs then Some(b) else if c in refs then Some(c)
            else if d in refs then Some(d) else None
  {
    assert [a, b, c, d][1..] == [b, c, d] && [b, c, d][1..] == [c, d] && [c, d][1..] == [d] && [d][1..] == [];
    assert FirstOf(refs, [d]) == if d in refs then Some(d) else None;
    assert FirstOf(refs, [c, d]) == if c in refs then Some(c) else FirstOf(refs, [d]);
  }

  /** The earlier names, one by one. */
  lemma ShadowsAre(ref: string)
    ensures Shadows(ref) ==
              ["refs/tags/" + ref, "refs/refs/tags/" + ref, "refs/tags/refs/tags/" + ref, "refs/heads/refs/tags/" + ref,
               "refs/remotes/refs/tags/" + ref, "refs/remotes/refs/tags/" + ref + "/HEAD",
               "mirror/" + ref, "refs/mirror/" + ref, "refs/tags/mirror/" + ref, "refs/heads/mirror/" + ref,
               "refs/remotes/mirror/" + ref, "refs/remotes/mirror/" + ref + "/HEAD",
               ref, "refs/" + ref, "refs/tags/" + ref]
  {
    var t, m := "refs/tags/" + ref, "mirror/" + ref;
    assert "refs/" + t == "refs/refs/tags/" + ref && "refs/tags/" + t == "refs/tags/refs/tags/" + ref;
    assert "refs/heads/" + t == "refs/heads/refs/tags/" + ref && "refs/remotes/" + t == "refs/remotes/refs/tags/" + ref;
    assert "refs/" + m == "refs/mirror/" + ref && "refs/tags/" + m == "refs/tags/mirror/" + ref;
    assert "refs/heads/" + m == "refs/heads/mirror/" + ref && "refs/remotes/" + m == "refs/remotes/mirror/" + ref;
  }

  /** Every name `_resolve_ref` tries before refs/heads/<ref>. */
  function Shadows(ref: string): seq<string> {
    ResolveOrder(ref)[..15]
  }

  /** A published branch resolves to itself in the worktree steps exactly when none of the
      fifteen earlier names exists, and in `qualify_ref` exactly when no tag and no mirror
      branch of that name does. */
  lemma PublishedBranchResolves(refs: Refs, slug: string)
    requires BranchRef(slug) in refs
    ensures ResolvedName(refs, Branch(slug)) == Some(BranchRef(slug))
      <==> forall n :: n in Shadows(Branch(slug)) ==> n !in refs
    ensures QualifiedName(refs, Branch(slug)) == Some(BranchRef(slug))
      <==> "refs/tags/" + Branch(slug) !in refs && "refs/remotes/mirror/" + Branch(slug) !in refs
  {
    var ref := Branch(slug);
    var names := ResolveOrder(ref);
    assert names[15] == BranchRef(slug);
    ShadowsDiffer(slug);
    FirstOfAt(refs, names, 15);
    assert forall i :: 0 <= i < 15 ==> Shadows(ref)[i] == names[i];
    assert (forall n :: n in Shadows(ref) ==> n !in refs) <==> (forall i :: 0 <= i < 15 ==> names[i] !in refs);
    var q := QualifyOrder(ref);
    assert ref[0] == 'b' && !("refs/" <= ref);
    assert q[0][5] == 't' && q[1][5] == 'r' && q[2][5] == 'h';
    FirstOfAt(refs, q, 2);
    assert (forall i :: 0 <= i < 2 ==> q[i] !in refs) <==> q[0] !in refs && q[1] !in refs;
  }

  lemma ShadowsDiffer(slug: string)
    ensures forall i :: 0 <= i < 15 ==> ResolveOrder(Branch(slug))[i] != BranchRef(slug)
  {
    var ref := Branch(slug);
    var names := ResolveOrder(ref);
    var b := BranchRef(slug);
    assert b[11..] == ref;
    assert b[0] == 'r' && b[5] == 'h' && b[11] == 'b';
    assert names[0][5] == 't' && names[1][5] == 'r' && names[2][5] == 't' && names[4][5] == 'r' && names[5][5] == 'r';
    assert names[3][11] == 'r' && names[9][11] == 'm';
    assert names[6][0] == 'm' && names[7][5] == 'm' && names[8][5] == 't' && names[10][5] == 'r' && names[11][5] == 'r';
    assert names[12][0] == 'b' && names[13][5] == 'b' && names[14][5] == 't';
  }

  /** The two readers therefore agree on a published branch that nothing shadows... */
  lemma ReadersAgreeUnshadowed(refs: Refs, p: Publication)
    requires EffectiveRef(refs, p).ByBranch?
    requires forall n :: n in Shadows(Branch(p.slug)) ==> n !in refs
    ensures var after := Publish(refs, p).1;
            && ResolvedName(after, Branch(p.slug)) == QualifiedName(after, Branch(p.slug)) == Some(BranchRef(p.slug))
            && Get(after, BranchRef(p.slug)) == Some(p.head)
  {
    var after := Publish(refs, p).1;
    ShadowsDiffer(p.slug);
    assert forall n :: n in Shadows(Branch(p.slug)) ==> n !in after;
    PublishedBranchResolves(after, p.slug);
    var names := ResolveOrder(Branch(p.slug));
    hide Publish;
    assert Shadows(Branch(p.slug))[0] == names[0] == "refs/tags/" + Branch(p.slug);
    assert Shadows(Branch(p.slug))[10] == names[10] == "refs/remotes/" + ("mirror/" + Branch(p.slug));
    assert "refs/remotes/" + ("mirror/" + Branch(p.slug)) == "refs/remotes/mirror/" + Branch(p.slug);
  }

  lemma MirrorBranchShadows(slug: string)
    ensures "refs/heads/mirror/" + Branch(slug) in Shadows(Branch(slug))
  {
    var ref := Branch(slug);
    assert Lookups("mirror/" + ref)[3] == "refs/heads/" + ("mirror/" + ref) == "refs/heads/mirror/" + ref;
    assert Shadows(ref)[9] == Lookups("mirror/" + ref)[3];
  }

  /** ...but "the same order" is not the whole truth: a developer branch named
      mirror/b4/<slug> is no tag and no mirror branch, yet the worktree steps read it. */
  lemma ReadersDisagree(refs: Refs, slug: string)
    requires BranchRef(slug) in refs && "refs/heads/mirror/" + Branch(slug) in refs
    requires "refs/tags/" + Branch(slug) !in refs && "refs/remotes/mirror/" + Branch(slug) !in refs
    ensures QualifiedName(refs, Branch(slug)) == Some(BranchRef(slug))
    ensures ResolvedName(refs, Branch(slug)) != Some(BranchRef(slug))
  {
    PublishedBranchResolves(refs, slug);
    MirrorBranchShadows(slug);
  }
}
