/** The build store: the identity index of f/common/store.py, whose entries are links into
    the store and garbage-collection roots at once, and the catalog actions of
    f/common/store_index.py. A call that raises is reported as such. */
module Store {
  import opened Wrappers

  type Path = string

  /** An index entry: a link with the time it was made, or something that is no link. */
  datatype Entry = Link(target: Path, mtime: int) | Other

  /** One host: the store paths that exist and the index directory. */
  datatype Host = Host(valid: set<Path>, index: map<string, Entry>)

  datatype Call<T> = Returned(value: T, host: Host) | Raised(host: Host)

  predicate Live(host: Host, name: string) {
    name in host.index && host.index[name].Link? && host.index[name].target in host.valid
  }

  /** `local_path`: the entry's target when it is a link to an existing path. */
  function LocalPath(host: Host, name: string): Option<Path> {
    if Live(host, name) then Some(host.index[name].target) else None
  }

  function LinkTarget(host: Host, name: string): Option<Path> {
    if name in host.index && host.index[name].Link? then Some(host.index[name].target) else None
  }

  /** `peer_path`: `readlink` over ssh, which does not ask whether the target exists. */
  function PeerPath(peer: Host, name: string): Option<Path> {
    LinkTarget(peer, name)
  }

  /** `nix build <path> --out-link <entry>`: links an existing path, and nothing else. */
  function LinkLocal(host: Host, name: string, path: Path, now: int): Call<()> {
    if path in host.valid && (name in host.index ==> host.index[name].Link?)
    then Returned((), host.(index := host.index[name := Link(path, now)]))
    else Raised(host)
  }

  /** `publish`: add the tree, then link what was added. */
  function Publish(host: Host, name: string, path: Path, now: int): Call<Path> {
    match LinkLocal(host.(valid := host.valid + {path}), name, path, now)
    case Returned(_, after) => Returned(path, after)
    case Raised(after) => Raised(after)
  }

  /** `fetch` then `link_local`: `nix copy` fails for a path the peer no longer has. */
  function Pull(host: Host, peer: Host, name: string, path: Path, now: int): Call<Option<Path>> {
    if path !in peer.valid then Raised(host) else
    match LinkLocal(host.(valid := host.valid + {path}), name, path, now)
    case Returned(_, after) => Returned(Some(path), after)
    case Raised(after) => Raised(after)
  }

  /** `resolve`: the local index, else the one named peer. */
  function Resolve(host: Host, name: string, remote: Option<Host>, now: int): Call<Option<Path>> {
    if LocalPath(host, name).Some? then Returned(LocalPath(host, name), host)
    else if remote.None? || PeerPath(remote.value, name).None? then Returned(None, host)
    else Pull(host, remote.value, name, PeerPath(remote.value, name).value, now)
  }

  /** `fetch_from_peers`: the first registered peer that carries the name. */
  function FetchFromPeers(host: Host, peers: seq<Host>, name: string, now: int): Call<Option<Path>> {
    if peers == [] then Returned(None, host)
    else if PeerPath(peers[0], name).None? then FetchFromPeers(host, peers[1..], name, now)
    else Pull(host, peers[0], name, PeerPath(peers[0], name).value, now)
  }

  function Forget(host: Host, names: set<string>): Host {
    host.(index := host.index - names)
  }

  function Dangling(host: Host): set<string> {
    set n | n in host.index && host.index[n].Link? && host.index[n].target !in host.valid
  }

  function Prune(host: Host): Host {
    host.(index := host.index - Dangling(host))
  }

  /** Garbage collection may take any path no entry links to. */
  function Collect(host: Host, dead: set<Path>): Host
    requires forall n :: n in host.index && host.index[n].Link? ==> host.index[n].target !in dead
  {
    host.(valid := host.valid - dead)
  }

  // ----- listing ------------------------------------------------------------------

  /** `sorted(d.iterdir())`: the entry names, each once. */
  ghost predicate IsListing(order: seq<string>, host: Host) {
    && (forall n :: n in order <==> n in host.index)
    && forall i, j :: 0 <= i < j < |order| ==> order[i] != order[j]
  }

  function ListIndex(host: Host, order: seq<string>, prefix: string): (r: seq<string>)
    ensures forall n :: n in r <==> n in order && prefix <= n && Live(host, n)
  {
    if order == [] then []
    else (if prefix <= order[0] && Live(host, order[0]) then [order[0]] else []) + ListIndex(host, order[1..], prefix)
  }

  function WithoutPrefix(names: seq<string>, prefix: string): (r: seq<string>)
    ensures forall n :: n in r <==> n in names && !(prefix <= n)
  {
    if names == [] then []
    else (if prefix <= names[0] then [] else [names[0]]) + WithoutPrefix(names[1..], prefix)
  }

  function ListRunLayers(host: Host, order: seq<string>, project: string): seq<string> {
    WithoutPrefix(ListIndex(host, order, project + "-"), project + "-devel-")
  }

  /** What the picker may offer: live, of this project, and not a devel layer. */
  predicate IsRunLayer(host: Host, project: string, name: string) {
    Live(host, name) && project + "-" <= name && !(project + "-devel-" <= name)
  }

  /** A newest run layer, or none when none is dated after -1. */
  ghost predicate IsLatest(host: Host, project: string, best: Option<string>) {
    && (best.None? <==> forall n :: IsRunLayer(host, project, n) ==> host.index[n].mtime <= -1)
    && (best.Some? ==> && IsRunLayer(host, project, best.value)
                       && forall n :: IsRunLayer(host, project, n) ==> host.index[n].mtime <= host.index[best.value].mtime)
  }

  /** The one run layer of a project, overlooked for its date. */
  lemma LayerBeforeTheEpoch(project: string, path: Path, best: Option<string>)
    ensures var name := project + "-x"; var host := Host({path}, map[name := Link(path, -1)]);
            IsRunLayer(host, project, name) && (IsLatest(host, project, best) <==> best.None?)
  {
    var name := project + "-x";
    var host := Host({path}, map[name := Link(path, -1)]);
    assert project + "-" <= name;
    assert name[|project|..] == "-x" && |name| < |project + "-devel-"|;
    assert IsRunLayer(host, project, name);
  }

  lemma RunLayersAre(host: Host, order: seq<string>, project: string)
    requires IsListing(order, host)
    ensures forall n :: n in ListRunLayers(host, order, project) <==> IsRunLayer(host, project, n)
  {
  }

  lemma {:induction false} RunLayersFirst(host: Host, order: seq<string>, project: string)
    requires order != []
    ensures ListRunLayers(host, order, project)
         == (if IsRunLayer(host, project, order[0]) then [order[0]] else []) + ListRunLayers(host, order[1..], project)
  {
    var rest := ListIndex(host, order[1..], project + "-");
    assert ([order[0]] + rest)[1..] == rest && [] + rest == rest;
  }

  /** Two entries stand at these places, in this order. */
  predicate InOrder(names: seq<string>, a: nat, b: nat, x: string, y: string) {
    a < b < |names| && names[a] == x && names[b] == y
  }

  lemma InOrderBehind(head: seq<string>, rest: seq<string>, a: nat, b: nat, x: string, y: string)
    requires InOrder(rest, a, b, x, y)
    ensures InOrder(head + rest, |head| + a, |head| + b, x, y)
  {
  }

  lemma {:induction false} FirstInOrder(x: string, rest: seq<string>, y: string) returns (b: nat)
    requires y in rest
    ensures InOrder([x] + rest, 0, b, x, y)
  {
    var k :| 0 <= k < |rest| && rest[k] == y;
    b := k + 1;
    assert ([x] + rest)[b] == rest[k];
  }

  lemma {:induction false} KeepsOrder(host: Host, order: seq<string>, project: string, j: nat, i: nat) returns (a: nat, b: nat)
    requires j < i < |order| && IsRunLayer(host, project, order[j]) && IsRunLayer(host, project, order[i])
    ensures InOrder(ListRunLayers(host, order, project), a, b, order[j], order[i])
    decreases j
  {
    hide *;
    var more := order[1..];
    assert more[i - 1] == order[i] && (j > 0 ==> more[j - 1] == order[j]);
    RunLayersFirst(host, order, project);
    var rest := ListRunLayers(host, more, project);
    var head := if IsRunLayer(host, project, order[0]) then [order[0]] else [];
    if j > 0 {
      var a', b' := KeepsOrder(host, more, project, j - 1, i - 1);
      InOrderBehind(head, rest, a', b', order[j], order[i]);
      a, b := |head| + a', |head| + b';
    } else {
      assert order[i] in more;
      RunLayersOf(host, more, project);
      a := 0;
      b := FirstInOrder(order[0], rest, order[i]);
    }
  }

  lemma RunLayersOf(host: Host, order: seq<string>, project: string)
    ensures forall n :: n in ListRunLayers(host, order, project) <==> n in order && IsRunLayer(host, project, n)
  {
  }

  lemma {:induction false} RunLayersDistinct(host: Host, order: seq<string>, project: string)
    requires forall i, j :: 0 <= i < j < |order| ==> order[i] != order[j]
    ensures forall i, j :: 0 <= i < j < |ListRunLayers(host, order, project)| ==>
              ListRunLayers(host, order, project)[i] != ListRunLayers(host, order, project)[j]
  {
    if order != [] {
      var rest := ListRunLayers(host, order[1..], project);
      RunLayersFirst(host, order, project);
      hide ListRunLayers, IsRunLayer;
      RunLayersDistinct(host, order[1..], project);
      RunLayersOf(host, order[1..], project);
      assert order[0] !in order[1..];
      assert forall i :: 0 <= i < |rest| ==> rest[i] in rest;
    }
  }

  /** Every run layer listed before it is older. */
  ghost predicate FirstAmong(host: Host, order: seq<string>, project: string, best: string) {
    IsRunLayer(host, project, best) ==>
      forall j, i :: 0 <= j < i < |order| && order[i] == best && IsRunLayer(host, project, order[j]) ==>
        host.index[order[j]].mtime < host.index[best].mtime
  }

  lemma FirstNamed(host: Host, order: seq<string>, project: string, at: nat, best: string)
    requires IsListing(order, host)
    requires var names := ListRunLayers(host, order, project);
             && at < |names| && names[at] == best && IsRunLayer(host, project, best)
             && forall k :: 0 <= k < at ==> IsRunLayer(host, project, names[k]) && host.index[names[k]].mtime < host.index[best].mtime
    ensures FirstAmong(host, order, project, best)
  {
    RunLayersDistinct(host, order, project);
    forall j, i | 0 <= j < i < |order| && order[i] == best && IsRunLayer(host, project, order[j])
      ensures host.index[order[j]].mtime < host.index[best].mtime
    {
      var a, b := KeepsOrder(host, order, project, j, i);
    }
  }

  lemma LatestFound(host: Host, order: seq<string>, project: string, best: Option<string>, bestTime: int, at: nat)
    requires IsListing(order, host)
    requires var names := ListRunLayers(host, order, project);
             && (forall k :: 0 <= k < |names| ==>
                   names[k] in host.index && host.index[names[k]].Link? && host.index[names[k]].mtime <= bestTime)
             && (best.None? ==> bestTime == -1)
             && (best.Some? ==> at < |names| && best.value == names[at] && bestTime == host.index[best.value].mtime > -1
                                && forall k :: 0 <= k < at ==> host.index[names[k]].mtime < bestTime)
    ensures IsLatest(host, project, best) && (best.Some? ==> FirstAmong(host, order, project, best.value))
  {
    var names := ListRunLayers(host, order, project);
    RunLayersAre(host, order, project);
    hide ListRunLayers, FirstAmong, IsListing;
    forall n | IsRunLayer(host, project, n)
      ensures host.index[n].mtime <= bestTime
    {
      var k :| 0 <= k < |names| && names[k] == n;
    }
    if best.Some? {
      assert forall k :: 0 <= k < at ==> names[k] in names;
      FirstNamed(host, order, project, at, best.value);
    }
  }

  datatype Forgotten = NoNames | Unconfirmed | Removed(removed: seq<(string, Option<Path>)>)

  /** The index directory of one host, updated in place. */
  class HostStore {
    var valid: set<Path>
    var index: map<string, Entry>

    function State(): Host
      reads this
    {
      Host(valid, index)
    }

    constructor (valid: set<Path>, index: map<string, Entry>)
      ensures State() == Host(valid, index)
    {
      this.valid, this.index := valid, index;
    }

    method BuildOutLink(name: string, path: Path, now: int) returns (ok: bool)
      modifies this`index
      ensures (if ok then Returned((), State()) else Raised(State())) == LinkLocal(old(State()), name, path, now)
    {
      ok := path in valid && (name !in index || index[name].Link?);
      if ok {
        index := index[name := Link(path, now)];
      }
    }

    method PublishTree(name: string, path: Path, now: int) returns (ok: bool)
      modifies this
      ensures (if ok then Returned(path, State()) else Raised(State())) == Publish(old(State()), name, path, now)
    {
      valid := valid + {path};
      ok := BuildOutLink(name, path, now);
    }

    method PullFrom(peer: HostStore, name: string, path: Path, now: int) returns (ok: bool)
      requires peer != this
      modifies this
      ensures (if ok then Returned(Some(path), State()) else Raised(State()))
           == Pull(old(State()), peer.State(), name, path, now)
    {
      if path !in peer.valid {
        return false;
      }
      valid := valid + {path};
      ok := BuildOutLink(name, path, now);
    }

    method ResolveName(name: string, remote: HostStore?, now: int) returns (ok: bool, path: Option<Path>)
      requires remote != this
      modifies this
      ensures (if ok then Returned(path, State()) else Raised(State()))
           == Resolve(old(State()), name, if remote == null then None else Some(remote.State()), now)
    {
      path := LocalPath(State(), name);
      if path.None? && remote != null {
        path := PeerPath(remote.State(), name);
        if path.Some? {
          ok := PullFrom(remote, name, path.value, now);
          return ok, path;
        }
      }
      return true, path;
    }

    method SweepPeers(peers: seq<HostStore>, name: string, now: int) returns (ok: bool, path: Option<Path>)
      requires forall i :: 0 <= i < |peers| ==> peers[i] != this
      modifies this
      ensures (if ok then Returned(path, State()) else Raised(State()))
           == FetchFromPeers(old(State()), States(peers), name, now)
    {
      for i := 0 to |peers|
        invariant State() == old(State())
        invariant FetchFromPeers(State(), States(peers), name, now) == FetchFromPeers(State(), States(peers)[i..], name, now)
      {
        assert States(peers)[i..][0] == peers[i].State() && States(peers)[i..][1..] == States(peers)[i + 1..];
        path := PeerPath(peers[i].State(), name);
        if path.Some? {
          ok := PullFrom(peers[i], name, path.value, now);
          return ok, path;
        }
      }
      return true, None;
    }

    /** `_forget`: nothing happens without a name and a confirmation. */
    method ForgetNames(names: seq<string>, confirm: bool) returns (r: Forgotten)
      modifies this`index
      ensures r.NoNames? <==> names == []
      ensures r.Unconfirmed? <==> names != [] && !confirm
      ensures !r.Removed? ==> State() == old(State())
      ensures r.Removed? ==> State() == Forget(old(State()), set n | n in names) && |r.removed| == |names|
      ensures r.Removed? ==> forall i :: 0 <= i < |names| ==>
                r.removed[i] == (names[i], if names[i] in names[..i] then None else LinkTarget(old(State()), names[i]))
    {
      if names == [] {
        return NoNames;
      }
      if !confirm {
        return Unconfirmed;
      }
      var removed: seq<(string, Option<Path>)> := [];
      ghost var gone := {};
      for i := 0 to |names|
        invariant forall n :: n in gone <==> n in names[..i]
        invariant State() == Forget(old(State()), gone)
        invariant |removed| == i
        invariant forall k :: 0 <= k < i ==>
                    removed[k] == (names[k], if names[k] in names[..k] then None else LinkTarget(old(State()), names[k]))
      {
        removed := removed + [(names[i], LinkTarget(State(), names[i]))];
        index := index - {names[i]};
        gone := gone + {names[i]};
      }
      assert gone == set n | n in names;
      return Removed(removed);
    }

    /** `_prune`: one pass over the directory, unlinking what dangles. */
    method PruneDangling() returns (removed: set<string>)
      modifies this`index
      ensures State() == Prune(old(State())) && removed == Dangling(old(State()))
    {
      removed := {};
      var todo := index.Keys;
      while todo != {}
        invariant todo <= old(index).Keys
        invariant removed == (set n | n in old(index) && n !in todo && old(index)[n].Link? && old(index)[n].target !in valid)
        invariant index == old(index) - removed
        decreases todo
      {
        var n :| n in todo;
        if index[n].Link? && index[n].target !in valid {
          index := index - {n};
          removed := removed + {n};
        }
        todo := todo - {n};
      }
    }

    /** `latest_run_layer`: the newest run layer, the first of them on a tie. */
    method LatestRunLayer(order: seq<string>, project: string) returns (best: Option<string>)
      requires IsListing(order, State())
      ensures IsLatest(State(), project, best)
      ensures best.Some? ==> FirstAmong(State(), order, project, best.value)
    {
      RunLayersAre(State(), order, project);
      var names := ListRunLayers(State(), order, project);
      best := None;
      var bestTime := -1;
      ghost var at := 0;
      hide ListRunLayers, FirstAmong, IsListing, IsRunLayer, IsLatest;
      for i := 0 to |names|
        invariant forall k :: 0 <= k < i ==> names[k] in index && index[names[k]].Link? && index[names[k]].mtime <= bestTime
        invariant best.Some? ==> at < i && best.value == names[at] && bestTime == index[best.value].mtime && bestTime > -1
        invariant best.Some? ==> forall k :: 0 <= k < at ==> index[names[k]].mtime < bestTime
        invariant best.None? ==> bestTime == -1
      {
        assert names[i] in names;
        if index[names[i]].mtime > bestTime {
          best, bestTime, at := Some(names[i]), index[names[i]].mtime, i;
        }
      }
      LatestFound(State(), order, project, best, bestTime, at);
    }
  }

  function States(peers: seq<HostStore>): (r: seq<Host>)
    reads peers
    ensures |r| == |peers| && forall i :: 0 <= i < |r| ==> r[i] == peers[i].State()
  {
    if peers == [] then [] else [peers[0].State()] + States(peers[1..])
  }

  // ----- every host, every run ----------------------------------------------------

  type World = seq<Host>

  datatype Event =
    | Published(name: string, path: Path, now: int)
    | Resolved(name: string, remote: Option<nat>, now: int)
    | Fetched(name: string, peers: seq<nat>, now: int)
    | Forgot(names: set<string>)
    | Pruned
    | Collected(dead: set<Path>)

  ghost predicate Possible(w: World, h: nat, e: Event) {
    h < |w| && match e
      case Resolved(_, remote, _) => remote.Some? ==> remote.value < |w|
      case Fetched(_, peers, _) => forall i :: 0 <= i < |peers| ==> peers[i] < |w|
      case Collected(dead) => forall n :: n in w[h].index && w[h].index[n].Link? ==> w[h].index[n].target !in dead
      case _ => true
  }

  function Pick(w: World, peers: seq<nat>): (r: seq<Host>)
    requires forall i :: 0 <= i < |peers| ==> peers[i] < |w|
    ensures |r| == |peers|
  {
    if peers == [] then [] else [w[peers[0]]] + Pick(w, peers[1..])
  }

  ghost function HostAfter(w: World, h: nat, e: Event): Host
    requires Possible(w, h, e)
  {
    match e
    case Published(name, path, now) => Publish(w[h], name, path, now).host
    case Resolved(name, remote, now) =>
      Resolve(w[h], name, if remote.None? then None else Some(w[remote.value]), now).host
    case Fetched(name, peers, now) => FetchFromPeers(w[h], Pick(w, peers), name, now).host
    case Forgot(names) => Forget(w[h], names)
    case Pruned => Prune(w[h])
    case Collected(dead) => Collect(w[h], dead)
  }

  /** Where a sweep stops: the first peer that carries the name, the length when none does. */
  function FirstCarrier(peers: seq<Host>, name: string): (i: nat)
    ensures i <= |peers| && (i < |peers| ==> PeerPath(peers[i], name).Some?)
    ensures forall k :: 0 <= k < i ==> PeerPath(peers[k], name).None?
  {
    if peers == [] || PeerPath(peers[0], name).Some? then 0 else 1 + FirstCarrier(peers[1..], name)
  }

  /** That peer still has the path it names, and it is not this one. */
  predicate SweepMoves(peers: seq<Host>, name: string, path: Path) {
    var i := FirstCarrier(peers, name);
    i < |peers| && PeerPath(peers[i], name).value in peers[i].valid && PeerPath(peers[i], name).value != path
  }

  /** The events that take a rooted name off its path. */
  ghost predicate Unroots(w: World, h: nat, e: Event, name: string, path: Path)
    requires Possible(w, h, e)
  {
    match e
    case Published(n, p, _) => n == name && p != path
    case Fetched(n, peers, _) => n == name && SweepMoves(Pick(w, peers), name, path)
    case Forgot(names) => name in names
    case _ => false
  }

  predicate Rooted(host: Host, name: string, path: Path) {
    LocalPath(host, name) == Some(path)
  }

  lemma {:induction false} FetchLinks(host: Host, peers: seq<Host>, name: string, now: int, n: string)
    ensures var after := FetchFromPeers(host, peers, name, now).host;
            && host.valid <= after.valid
            && (n != name ==> Get(after.index, n) == Get(host.index, n))
            && (Get(after.index, n) != Get(host.index, n) ==> Live(after, n))
  {
    if peers != [] && PeerPath(peers[0], name).None? {
      FetchLinks(host, peers[1..], name, now, n);
    }
  }

  /** A sweep does not look here first: it moves a live name exactly when the first peer that
      carries it has another path for it. */
  lemma {:induction false} FetchMovesExactly(host: Host, peers: seq<Host>, name: string, now: int)
    requires Live(host, name)
    ensures var after := FetchFromPeers(host, peers, name, now).host;
            LocalPath(after, name) != LocalPath(host, name) <==> SweepMoves(peers, name, LocalPath(host, name).value)
  {
    if peers != [] && PeerPath(peers[0], name).None? {
      FetchMovesExactly(host, peers[1..], name, now);
    }
  }

  /** No event creates or moves an entry to a path the host does not have. */
  lemma EntriesAreMadeValid(w: World, h: nat, e: Event, n: string)
    requires Possible(w, h, e)
    ensures var after := HostAfter(w, h, e);
            n in after.index && Get(after.index, n) != Get(w[h].index, n) ==> Live(after, n)
  {
    if e.Fetched? {
      FetchLinks(w[h], Pick(w, e.peers), e.name, e.now, n);
    }
  }

  /** A path `resolve` returned is rooted under the name, here. */
  lemma ResolveRoots(host: Host, name: string, remote: Option<Host>, now: int, path: Path)
    requires Resolve(host, name, remote, now) == Returned(Some(path), Resolve(host, name, remote, now).host)
    ensures Rooted(Resolve(host, name, remote, now).host, name, path)
  {
  }

  /** A rooted name keeps its path through an event exactly when the event is not one of
      those. */
  lemma RootSurvivesExactly(w: World, h: nat, e: Event, name: string, path: Path)
    requires Possible(w, h, e) && Rooted(w[h], name, path)
    ensures Rooted(HostAfter(w, h, e), name, path) <==> !Unroots(w, h, e, name, path)
  {
    if e.Fetched? {
      if e.name == name {
        FetchMovesExactly(w[h], Pick(w, e.peers), name, e.now);
      } else {
        FetchLinks(w[h], Pick(w, e.peers), e.name, e.now, name);
      }
    }
  }

  /** worlds[i] --events[i] on hosts[i]--> worlds[i + 1]; the other hosts stand still. */
  ghost predicate StepAt(worlds: seq<World>, hosts: seq<nat>, events: seq<Event>, i: nat)
    requires |worlds| == |events| + 1 == |hosts| + 1 && i < |events|
  {
    && Possible(worlds[i], hosts[i], events[i])
    && worlds[i + 1] == worlds[i][hosts[i] := HostAfter(worlds[i], hosts[i], events[i])]
  }

  ghost predicate IsRun(worlds: seq<World>, hosts: seq<nat>, events: seq<Event>) {
    && |worlds| == |events| + 1 == |hosts| + 1
    && forall i :: 0 <= i < |events| ==> StepAt(worlds, hosts, events, i)
  }

  /** Event `i` happens on host `h` and takes the name off the path. */
  ghost predicate UnrootsAt(worlds: seq<World>, hosts: seq<nat>, events: seq<Event>, i: nat, h: nat, name: string, path: Path)
    requires IsRun(worlds, hosts, events) && i < |events|
  {
    hosts[i] == h && StepAt(worlds, hosts, events, i) && Unroots(worlds[i], h, events[i], name, path)
  }

  /** Over any run on any number of hosts, a rooted path stays valid until some event on that
      host takes the name off it. */
  lemma {:induction false} RootedUntilUnrooted(worlds: seq<World>, hosts: seq<nat>, events: seq<Event>,
                                               h: nat, name: string, path: Path, k: nat)
    requires IsRun(worlds, hosts, events) && k <= |events|
    requires h < |worlds[0]| && Rooted(worlds[0][h], name, path)
    requires forall i :: 0 <= i < k ==> !UnrootsAt(worlds, hosts, events, i, h, name, path)
    ensures h < |worlds[k]| && Rooted(worlds[k][h], name, path) && path in worlds[k][h].valid
  {
    if k > 0 {
      var i := k - 1;
      RootedUntilUnrooted(worlds, hosts, events, h, name, path, i);
      assert StepAt(worlds, hosts, events, i) && !UnrootsAt(worlds, hosts, events, i, h, name, path);
      if hosts[i] == h {
        RootSurvivesExactly(worlds[i], h, events[i], name, path);
      }
    }
  }

  /** Pruning removes exactly the links that listing hides; what listing shows, and what is
      no link at all, stays. */
  lemma PruneRemovesWhatListingHides(host: Host, order: seq<string>, n: string)
    requires IsListing(order, host) && n in host.index
    ensures n !in Prune(host).index <==> host.index[n].Link? && n !in ListIndex(host, order, "")
  {
    assert "" <= n;
  }

  /** With one peer that has another live path for the name, the sweep moves it. */
  lemma FetchMovesLiveName(host: Host, peer: Host, name: string, path: Path, now: int)
    requires LocalPath(host, name).Some? && LocalPath(peer, name) == Some(path) && path != LocalPath(host, name).value
    ensures FetchFromPeers(host, [peer], name, now).Returned?
    ensures LocalPath(FetchFromPeers(host, [peer], name, now).host, name) == Some(path)
  {
  }
}
