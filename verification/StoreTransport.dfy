/** What the store answers and what each answer leaves behind: publishing, resolving and
    sweeping, told from the two hosts before the call. */
module StoreTransport {
  import opened Wrappers
  import opened Store

  /** The path the host's index has under the name, whether it still exists or not. */
  function Names(host: Host, name: string): Option<Path> {
    if name in host.index && host.index[name].Link? then Some(host.index[name].target) else None
  }

  predicate Has(host: Host, name: string) {
    Names(host, name).Some? && Names(host, name).value in host.valid
  }

  /** Nothing stands where the link goes, or a link does. */
  predicate Linkable(host: Host, name: string) {
    name !in host.index || host.index[name].Link?
  }

  /** The path is here and linked under the name, and nothing else changed. */
  ghost predicate Rooted(before: Host, after: Host, name: string, path: Path, now: int) {
    && after.valid == before.valid + {path}
    && Get(after.index, name) == Some(Link(path, now))
    && forall n :: n != name ==> Get(after.index, n) == Get(before.index, n)
  }

  /** Nothing was linked; at most the path has arrived. */
  predicate Unlinked(before: Host, after: Host, path: Path) {
    after.index == before.index && (after.valid == before.valid || after.valid == before.valid + {path})
  }

  /** A publication returns exactly when the name can be linked, and then the path it added,
      rooted under the name. */
  lemma PublishExactly(host: Host, name: string, path: Path, now: int)
    ensures var c := Publish(host, name, path, now);
            && (c.Returned? <==> Linkable(host, name))
            && (c.Returned? ==> c.value == path && Rooted(host, c.host, name, path, now))
            && (c.Raised? ==> Unlinked(host, c.host, path))
  {
  }

  /** A path a peer names is brought here exactly when the peer still has it and the name can be
      linked here. */
  predicate Arrives(host: Host, peer: Host, name: string) {
    Has(peer, name) && Linkable(host, name)
  }

  /** What comes of asking a peer that names a path. */
  ghost predicate Brought(host: Host, peer: Host, name: string, now: int, c: Call<Option<Path>>) {
    && Names(peer, name).Some?
    && var path := Names(peer, name).value;
       if Arrives(host, peer, name) then c.Returned? && c.value == Some(path) && Rooted(host, c.host, name, path, now)
       else c.Raised? && Unlinked(host, c.host, path)
  }

  /** Resolving a name: the path it has here; else the path the named peer has, which is then
      rooted here; nothing when neither names one; and an error when the peer's path cannot be
      brought. */
  lemma ResolveExactly(host: Host, name: string, remote: Option<Host>, now: int)
    ensures var c := Resolve(host, name, remote, now);
            && (Has(host, name) ==> c == Returned(Names(host, name), host))
            && (!Has(host, name) && (remote.None? || Names(remote.value, name).None?) ==> c == Returned(None, host))
            && (!Has(host, name) && remote.Some? && Names(remote.value, name).Some? ==>
                  Brought(host, remote.value, name, now, c))
  {
  }

  /** So a path is returned exactly when it is here, or the peer has it and it can be linked. */
  lemma ResolveReturnsExactly(host: Host, name: string, remote: Option<Host>, now: int, path: Path)
    ensures var c := Resolve(host, name, remote, now);
            c.Returned? && c.value == Some(path) <==>
              if Has(host, name) then Names(host, name) == Some(path)
              else remote.Some? && Arrives(host, remote.value, name) && Names(remote.value, name) == Some(path)
  {
    ResolveExactly(host, name, remote, now);
  }

  /** Sweeping the peers asks the first that names a path, and no other; none does: nothing
      happens. */
  lemma {:induction false} SweepExactly(host: Host, peers: seq<Host>, name: string, now: int, i: nat)
    requires i <= |peers| && forall k :: 0 <= k < i ==> Names(peers[k], name).None?
    requires i < |peers| ==> Names(peers[i], name).Some?
    ensures var c := FetchFromPeers(host, peers, name, now);
            if i < |peers| then Brought(host, peers[i], name, now, c) else c == Returned(None, host)
    decreases i
  {
    if i > 0 {
      assert peers[1..][i - 1..] == peers[i..];
      SweepExactly(host, peers[1..], name, now, i - 1);
    }
  }
}
