/** The subscription registry and fan-out engine: `Resource`, `Client` and
    `ConsistencyServer`, with the state each one updates in place. */
module Server {
  import opened Lists
  import opened Messages
  import opened Registry

  /** Server-side representative of one WebSocket connection. */
  class Client {
    /** The resources this client unsubscribes from when it stops watching. No
        operation of the server ever adds to this list. */
    var resources: seq<Resource>

    constructor ()
      ensures resources == []
    {
      resources := [];
    }

    /** The subscriber lists of the resources in `resources`, and the registry of
        `srv`: all that `StopWatching` reads or writes. */
    ghost function Touched(srv: ConsistencyServer): Snap
      reads this, resources, srv
    {
      Snap(map r | r in resources :: r.clients, srv.resources)
    }

    /** `Client.stop_watching`: `remove_client(this)` on each resource in list order.
        A ValueError from one of them ends the loop, and the removals already made
        stay made. */
    method StopWatching(ghost srv: ConsistencyServer) returns (err: Option<Error>)
      requires srv.Valid()
      requires forall r | r in resources :: r.server == srv
      modifies resources`clients, srv`resources
      ensures srv.Valid()
      ensures (Touched(srv), err) == StopWatchingSteps(old(Touched(srv)), resources, this)
    {
      ghost var s0 := Touched(srv);
      var i := 0;
      err := None;
      while i < |resources| && err.None?
        invariant 0 <= i <= |resources|
        invariant srv.Valid()
        invariant (Touched(srv), err) == StopWatchingSteps(s0, resources[..i], this)
      {
        StopWatchingStepsNext(s0, resources, i, this);
        err := RemoveFrom(resources[i], srv);
        i := i + 1;
      }
      if err.Some? {
        StopWatchingStepsStop(s0, resources, i, this);
      } else {
        assert i == |resources|;
        FullPrefix(resources);
      }
    }

    /** One iteration of `stop_watching`: `remove_client(this)` on `r`, seen on the
        lists and the registry it touches. */
    method RemoveFrom(r: Resource, ghost srv: ConsistencyServer) returns (err: Option<Error>)
      requires srv.Valid() && r in resources && r.server == srv
      modifies r`clients, srv`resources
      ensures srv.Valid()
      ensures (Touched(srv), err) == RemoveClientStep(old(Touched(srv)), r, this)
    {
      ghost var s := Touched(srv);
      err := r.RemoveClient(this);
      ghost var t := RemoveClientStep(s, r, this).0;
      TouchedIs(resources, t.lists);
    }
  }

  /** The part of the heap a run of `remove_client` calls reads and writes: the
      subscriber list of each resource involved, and the registry. */
  datatype Snap = Snap(lists: map<Resource, seq<Client>>, registry: map<string, Resource>)

  /** `Resource.remove_client(c)` on `r`, as a step on values: ValueError and no
      change when `c` does not watch `r`; otherwise the first occurrence of `c` goes
      and, if that empties the list, `remove_resource` drops `r`'s uri. */
  function RemoveClientStep(s: Snap, r: Resource, c: Client): (res: (Snap, Option<Error>))
    requires r in s.lists
    ensures res.0.lists.Keys == s.lists.Keys
    ensures res.0.registry.Keys <= s.registry.Keys
  {
    if c !in s.lists[r] then (s, Some(ValueError))
    else
      var rest := RemoveFirst(s.lists[r], c);
      (Snap(s.lists[r := rest], if rest == [] then s.registry - {r.uri} else s.registry), None)
  }

  /** `Client.stop_watching` over the list `rs`, as steps on values: the steps in
      list order, up to and including the first one that fails. */
  function StopWatchingSteps(s: Snap, rs: seq<Resource>, c: Client): (res: (Snap, Option<Error>))
    requires forall r | r in rs :: r in s.lists
    ensures res.0.lists.Keys == s.lists.Keys
    ensures res.0.registry.Keys <= s.registry.Keys
  {
    if rs == [] then (s, None)
    else
      var prev := StopWatchingSteps(s, rs[..|rs| - 1], c);
      if prev.1.Some? then prev else RemoveClientStep(prev.0, rs[|rs| - 1], c)
  }

  lemma FullPrefix<T>(s: seq<T>)
    ensures s[..|s|] == s
  {
  }

  /** One more step of a run over a prefix of `rs`. */
  lemma StopWatchingStepsNext(s: Snap, rs: seq<Resource>, i: nat, c: Client)
    requires forall r | r in rs :: r in s.lists
    requires i < |rs|
    ensures var prev := StopWatchingSteps(s, rs[..i], c);
            StopWatchingSteps(s, rs[..i + 1], c) == if prev.1.Some? then prev else RemoveClientStep(prev.0, rs[i], c)
  {
    assert rs[..i + 1][..i] == rs[..i];
  }

  /** The subscriber lists of the resources in `rs`, read from the heap, are `lists`
      when they agree one by one. */
  lemma TouchedIs(rs: seq<Resource>, lists: map<Resource, seq<Client>>)
    requires lists.Keys == set r | r in rs
    requires forall r | r in rs :: r.clients == lists[r]
    ensures (map r | r in rs :: r.clients) == lists
  {
  }

  /** Once a step has failed, the later resources in the list are not touched. */
  lemma {:induction false} StopWatchingStepsStop(s: Snap, rs: seq<Resource>, k: nat, c: Client)
    requires forall r | r in rs :: r in s.lists
    requires k <= |rs| && StopWatchingSteps(s, rs[..k], c).1.Some?
    ensures StopWatchingSteps(s, rs, c) == StopWatchingSteps(s, rs[..k], c)
    decreases |rs| - k
  {
    if k < |rs| {
      assert rs[..k + 1][..k] == rs[..k];
      StopWatchingStepsStop(s, rs, k + 1, c);
    } else {
      assert rs[..k] == rs;
    }
  }

  /** The uris that become unregistered when `c` leaves each resource of `rs` as
      often as the resource occurs in `rs`: those of the resources whose list is
      exactly that long. */
  ghost function EmptiedUris(s: Snap, rs: seq<Resource>): set<string>
    requires forall r | r in rs :: r in s.lists
  {
    set r | r in rs && |s.lists[r]| == multiset(rs)[r] :: r.uri
  }

  /** When `c` watches every resource of its list, and the list has no duplicates,
      stopping to watch succeeds, and `c` loses one entry in each of those resources
      and in no other. */
  lemma {:induction false} StopWatchingLeavesEach(s: Snap, rs: seq<Resource>, c: Client)
    requires forall i, j | 0 <= i < j < |rs| :: rs[i] != rs[j]
    requires forall r | r in rs :: r in s.lists && c in s.lists[r]
    ensures StopWatchingSteps(s, rs, c).1 == None
    ensures forall r | r in s.lists ::
              StopWatchingSteps(s, rs, c).0.lists[r] == if r in rs then RemoveFirst(s.lists[r], c) else s.lists[r]
  {
    if rs != [] {
      var init, last := rs[..|rs| - 1], rs[|rs| - 1];
      assert forall r | r in init :: r in rs;
      StopWatchingLeavesEach(s, init, c);
      LastNotInInit(rs);
      var prev := StopWatchingSteps(s, init, c);
      var step := RemoveClientStep(prev.0, last, c);
      assert StopWatchingSteps(s, rs, c) == step;
      forall r | r in s.lists
        ensures step.0.lists[r] == if r in rs then RemoveFirst(s.lists[r], c) else s.lists[r]
      {
        if r != last {
          assert r in rs <==> r in init;
        }
      }
    }
  }

  /** The last element of a sequence without duplicates does not occur before it. */
  lemma LastNotInInit<T>(rs: seq<T>)
    requires rs != []
    requires forall i, j | 0 <= i < j < |rs| :: rs[i] != rs[j]
    ensures rs[|rs| - 1] !in rs[..|rs| - 1]
  {
  }

  /** The general case, where `rs` may name a resource more than once (a client
      that watched a uri twice): if `c` has at least as many entries in each
      resource as the resource occurs in `rs`, stopping to watch succeeds, `c` loses
      exactly that many entries in each of them, and the other lists are unchanged. */
  lemma StopWatchingLeavesAll(s: Snap, rs: seq<Resource>, c: Client)
    requires Covered(s, rs, c)
    ensures StopWatchingSteps(s, rs, c).1 == None
    ensures forall r | r in s.lists && r !in rs :: StopWatchingSteps(s, rs, c).0.lists[r] == s.lists[r]
    ensures forall r | r in s.lists ::
              multiset(StopWatchingSteps(s, rs, c).0.lists[r])
                == multiset(s.lists[r])[c := multiset(s.lists[r])[c] - multiset(rs)[r]]
  {
    StopWatchingSucceeds(s, rs, c);
    forall r | r in s.lists
      ensures r !in rs ==> StopWatchingSteps(s, rs, c).0.lists[r] == s.lists[r]
      ensures multiset(StopWatchingSteps(s, rs, c).0.lists[r])
                == multiset(s.lists[r])[c := multiset(s.lists[r])[c] - multiset(rs)[r]]
    {
      if r !in rs {
        StopWatchingKeepsOthers(s, rs, c, r);
      }
      StopWatchingLeavesOne(s, rs, c, r);
    }
  }

  /** Every resource of `rs` is in the snapshot, and `c` has at least as many
      entries in it as the resource occurs in `rs`. */
  ghost predicate Covered(s: Snap, rs: seq<Resource>, c: Client)
  {
    forall r | r in rs :: r in s.lists && multiset(rs)[r] <= multiset(s.lists[r])[c]
  }

  /** A prefix of a covered list is covered. */
  lemma CoveredInit(s: Snap, rs: seq<Resource>, c: Client)
    requires rs != [] && Covered(s, rs, c)
    ensures multiset(rs) == multiset(rs[..|rs| - 1]) + multiset{rs[|rs| - 1]}
    ensures Covered(s, rs[..|rs| - 1], c)
  {
    assert rs == rs[..|rs| - 1] + [rs[|rs| - 1]];
    assert forall r | r in rs[..|rs| - 1] :: r in rs;
  }

  /** The run succeeds when `c` has enough entries in every resource of `rs`. */
  lemma {:induction false} StopWatchingSucceeds(s: Snap, rs: seq<Resource>, c: Client)
    requires Covered(s, rs, c)
    ensures StopWatchingSteps(s, rs, c).1 == None
    decreases |rs|
  {
    if rs != [] {
      var init, last := rs[..|rs| - 1], rs[|rs| - 1];
      CoveredInit(s, rs, c);
      StopWatchingSucceeds(s, init, c);
      StopWatchingLeavesOne(s, init, c, last);
      var prev := StopWatchingSteps(s, init, c);
      var mi: multiset<Resource> := multiset(init);
      assert c in prev.0.lists[last] by {
        assert multiset(prev.0.lists[last])[c] == multiset(s.lists[last])[c] - mi[last];
      }
      assert StopWatchingSteps(s, rs, c) == RemoveClientStep(prev.0, last, c);
    }
  }

  /** The run leaves the list of a resource that is not in `rs` alone. */
  lemma {:induction false} StopWatchingKeepsOthers(s: Snap, rs: seq<Resource>, c: Client, r: Resource)
    requires forall r' | r' in rs :: r' in s.lists
    requires r in s.lists && r !in rs
    ensures StopWatchingSteps(s, rs, c).0.lists[r] == s.lists[r]
  {
    if rs != [] {
      var init := rs[..|rs| - 1];
      assert forall r' | r' in init :: r' in rs;
      StopWatchingKeepsOthers(s, init, c, r);
    }
  }

  /** The effect of the run on the list of one resource `r`: `c` loses as many
      entries as `r` occurs in `rs`. */
  lemma {:induction false} StopWatchingLeavesOne(s: Snap, rs: seq<Resource>, c: Client, r: Resource)
    requires Covered(s, rs, c)
    requires r in s.lists
    ensures multiset(StopWatchingSteps(s, rs, c).0.lists[r])
              == multiset(s.lists[r])[c := multiset(s.lists[r])[c] - multiset(rs)[r]]
    decreases |rs|
  {
    if rs != [] {
      var init, last := rs[..|rs| - 1], rs[|rs| - 1];
      CoveredInit(s, rs, c);
      StopWatchingSucceeds(s, init, c);
      StopWatchingLeavesOne(s, init, c, r);
      var mi: multiset<Resource> := multiset(init);
      var mr: multiset<Resource> := multiset(rs);
      var prev := StopWatchingSteps(s, init, c);
      var step := RemoveClientStep(prev.0, last, c);
      assert StopWatchingSteps(s, rs, c) == step;
      if r == last {
        assert multiset(prev.0.lists[r])[c] == multiset(s.lists[r])[c] - mi[r];
        assert c in prev.0.lists[r];
        assert multiset(step.0.lists[r]) == multiset(prev.0.lists[r]) - multiset{c};
        DropOneMore(multiset(s.lists[r]), multiset(prev.0.lists[r]), c, mi[r]);
      } else {
        assert step.0.lists[r] == prev.0.lists[r];
        assert mr[r] == mi[r];
      }
    }
  }

  /** Taking one more copy of `x` out of a multiset that already lost `k` of them. */
  lemma DropOneMore<T>(m: multiset<T>, p: multiset<T>, x: T, k: nat)
    requires k + 1 <= m[x]
    requires p == m[x := m[x] - k]
    ensures p - multiset{x} == m[x := m[x] - (k + 1)]
  {
  }

  /** The run shortens the list of each resource by the number of times the
      resource occurs in `rs`. */
  lemma {:induction false} StopWatchingShortens(s: Snap, rs: seq<Resource>, c: Client, r: Resource)
    requires Covered(s, rs, c)
    requires r in s.lists
    ensures |StopWatchingSteps(s, rs, c).0.lists[r]| == |s.lists[r]| - multiset(rs)[r]
  {
    if rs != [] {
      var init, last := rs[..|rs| - 1], rs[|rs| - 1];
      CoveredInit(s, rs, c);
      StopWatchingSucceeds(s, init, c);
      StopWatchingSucceeds(s, rs, c);
      StopWatchingShortens(s, init, c, r);
      var mi: multiset<Resource> := multiset(init);
      var mr: multiset<Resource> := multiset(rs);
      var prev := StopWatchingSteps(s, init, c);
      var step := RemoveClientStep(prev.0, last, c);
      assert StopWatchingSteps(s, rs, c) == step;
      if r == last {
        assert c in prev.0.lists[r];
      } else {
        assert mr[r] == mi[r];
      }
    }
  }

  /** Under the conditions of `StopWatchingLeavesAll`, exactly the uris of the
      resources whose list loses every entry leave the registry; every other entry
      stays. */
  lemma {:induction false} StopWatchingUnregisters(s: Snap, rs: seq<Resource>, c: Client)
    requires Covered(s, rs, c)
    ensures StopWatchingSteps(s, rs, c).1 == None
    ensures forall r | r in s.lists :: |StopWatchingSteps(s, rs, c).0.lists[r]| == |s.lists[r]| - multiset(rs)[r]
    ensures StopWatchingSteps(s, rs, c).0.registry == s.registry - EmptiedUris(s, rs)
  {
    StopWatchingSucceeds(s, rs, c);
    forall r | r in s.lists
      ensures |StopWatchingSteps(s, rs, c).0.lists[r]| == |s.lists[r]| - multiset(rs)[r]
    {
      StopWatchingShortens(s, rs, c, r);
    }
    if rs != [] {
      var init, last := rs[..|rs| - 1], rs[|rs| - 1];
      CoveredInit(s, rs, c);
      StopWatchingUnregisters(s, init, c);
      StopWatchingShortens(s, init, c, last);
      var mi: multiset<Resource> := multiset(init);
      var mr: multiset<Resource> := multiset(rs);
      var prev := StopWatchingSteps(s, init, c);
      var step := RemoveClientStep(prev.0, last, c);
      assert StopWatchingSteps(s, rs, c) == step;
      assert c in prev.0.lists[last];
      assert |prev.0.lists[last]| == |s.lists[last]| - mi[last] && mr[last] == mi[last] + 1;
      EmptiedUrisLast(s, rs);
      if |s.lists[last]| == mr[last] {
        assert step.0.registry == prev.0.registry - {last.uri};
        SubtractTwice(s.registry, EmptiedUris(s, init), {last.uri});
      } else {
        assert step.0.registry == prev.0.registry;
        assert EmptiedUris(s, rs) == EmptiedUris(s, init);
      }
    } else {
      assert EmptiedUris(s, rs) == {};
    }
  }

  /** The uris emptied over `rs` are those emptied over all but its last resource,
      plus that resource's uri when its last occurrence takes its last entry. */
  lemma EmptiedUrisLast(s: Snap, rs: seq<Resource>)
    requires rs != []
    requires forall r | r in rs :: r in s.lists
    requires |s.lists[rs[|rs| - 1]]| > multiset(rs[..|rs| - 1])[rs[|rs| - 1]]
    ensures var last := rs[|rs| - 1];
            EmptiedUris(s, rs)
            == EmptiedUris(s, rs[..|rs| - 1]) + (if |s.lists[last]| == multiset(rs)[last] then {last.uri} else {})
  {
    var init, last := rs[..|rs| - 1], rs[|rs| - 1];
    assert rs == init + [last];
    assert multiset(rs) == multiset(init) + multiset{last};
    assert forall r | r in init :: r in rs;
    assert forall r | r in rs :: r in init || r == last;
    var gone := if |s.lists[last]| == multiset(rs)[last] then {last.uri} else {};
    forall u ensures u in EmptiedUris(s, rs) <==> u in EmptiedUris(s, init) + gone {
      if u in EmptiedUris(s, rs) {
        var r :| r in rs && |s.lists[r]| == multiset(rs)[r] && r.uri == u;
        assert r in init || r == last;
      }
      if u in EmptiedUris(s, init) {
        var r :| r in init && |s.lists[r]| == multiset(init)[r] && r.uri == u;
        assert r != last;
      }
    }
  }

  lemma SubtractTwice<K, V>(m: map<K, V>, a: set<K>, b: set<K>)
    ensures m - a - b == m - (a + b)
  {
  }

  /** Stopping to watch is not idempotent once the list is non-empty: after the
      first call has taken the client's only entry out of `r`, a second call fails
      with ValueError and changes nothing. */
  lemma StopWatchingTwice(s: Snap, r: Resource, c: Client)
    requires r in s.lists && multiset(s.lists[r])[c] == 1
    ensures StopWatchingSteps(s, [r], c).1 == None
    ensures StopWatchingSteps(StopWatchingSteps(s, [r], c).0, [r], c)
         == (StopWatchingSteps(s, [r], c).0, Some(ValueError))
  {
    assert [r][..0] == [];
    var rest := RemoveFirst(s.lists[r], c);
    assert c !in rest by {
      assert multiset(rest)[c] == 0;
    }
  }

  /** The registry after `watch(c, u)` has appended `c` to the resource filed under
      `u`, every other entry untouched: it is valid and its view is `Watched`. */
  lemma WatchedState(srv: ConsistencyServer, c: Client, u: string, v0: map<string, seq<Client>>)
    requires srv.resources.Keys == v0.Keys + {u}
    requires forall k | k in srv.resources :: srv.resources[k].uri == k && srv.resources[k].server == srv
    requires forall k | k in v0 && k != u :: srv.resources[k].clients == v0[k] && v0[k] != []
    requires srv.resources[u].clients == (if u in v0 then v0[u] else []) + [c]
    ensures srv.Valid() && srv.View() == Watched(v0, c, u)
  {
    var w := Watched(v0, c, u);
    assert srv.View().Keys == w.Keys;
    forall k | k in w ensures srv.View()[k] == w[k] {
    }
  }

  /** The watchable entity for one uri. */
  class Resource {
    const uri: string
    const server: ConsistencyServer
    /** Subscribers in subscription order; a client may appear more than once. */
    var clients: seq<Client>
    /** Wall-clock time of the last update; the clock is passed in. */
    var lastUpdateDate: real

    constructor (uri: string, server: ConsistencyServer, now: real)
      ensures this.uri == uri && this.server == server
      ensures clients == [] && lastUpdateDate == now
    {
      this.uri := uri;
      this.server := server;
      clients := [];
      lastUpdateDate := now;
    }

    /** `Resource.update`: stamp the time, then send one invalidation to each entry
        of the subscriber list, in list order. The list itself is left alone. */
    method Update(now: real)
      modifies this`lastUpdateDate, server`outbox
      ensures lastUpdateDate == now
      ensures server.outbox == old(server.outbox) + Invalidations(clients, uri)
    {
      lastUpdateDate := now;
      for i := 0 to |clients|
        invariant lastUpdateDate == now
        invariant server.outbox == old(server.outbox) + Invalidations(clients[..i], uri)
      {
        server.Invalidate(clients[i], this);
        InvalidationsAppend(clients[..i], clients[i], uri);
        assert clients[..i + 1] == clients[..i] + [clients[i]];
      }
      assert clients[..|clients|] == clients;
    }

    /** `Resource.add_client`: append, without looking for an earlier entry. */
    method AddClient(c: Client)
      modifies this`clients
      ensures clients == old(clients) + [c]
    {
      clients := clients + [c];
    }

    /** `Resource.remove_client`: `list.remove(c)`, which raises ValueError when `c`
        is not subscribed; when the list becomes empty, ask the server to drop this
        resource. */
    method RemoveClient(c: Client) returns (err: Option<Error>)
      requires server.Valid()
      modifies this`clients, server`resources
      ensures server.Valid()
      ensures c !in old(clients) ==>
                err == Some(ValueError) && clients == old(clients) && server.resources == old(server.resources)
      ensures c in old(clients) ==>
                err == None && clients == RemoveFirst(old(clients), c)
                && server.resources == if clients == [] then old(server.resources) - {uri} else old(server.resources)
    {
      if c !in clients {
        return Some(ValueError);
      }
      clients := RemoveFirst(clients, c);
      if |clients| == 0 {
        server.RemoveResource(this);
      }
      err := None;
    }
  }

  /** The registry: one `Resource` per watched uri, and the pushes sent so far. */
  class ConsistencyServer {
    var resources: map<string, Resource>
    /** Every `sendMessage` on a client connection, in the order it was made. */
    var outbox: seq<Push<Client>>

    /** Each registered resource is filed under its own uri, belongs to this server
        and has at least one subscriber. */
    ghost predicate Valid()
      reads this, resources.Values
    {
      forall u | u in resources ::
        resources[u].uri == u && resources[u].server == this && resources[u].clients != []
    }

    /** The registry as values: uri to subscriber list. */
    ghost function View(): (v: map<string, seq<Client>>)
      reads this, resources.Values
      ensures v.Keys == resources.Keys
      ensures Valid() ==> Subscribed(v)
    {
      map u | u in resources :: resources[u].clients
    }

    constructor ()
      ensures Valid() && resources == map[] && outbox == []
    {
      resources := map[];
      outbox := [];
    }

    /** `ClientProtocol.invalidate`: push `{"message": "invalidate", "data": {"uri": ...}}`
        to `client`. */
    method Invalidate(client: Client, resource: Resource)
      modifies this`outbox
      ensures outbox == old(outbox) + [Push(client, InvalidateMessage(resource.uri))]
    {
      outbox := outbox + [Push(client, InvalidateMessage(resource.uri))];
    }

    /** The resource an update of `uri` is routed to, if any: all that it may restamp. */
    ghost function Routed(uri: string): set<Resource>
      reads this
    {
      if uri in resources then {resources[uri]} else {}
    }

    /** `ConsistencyServer.update`: route to the resource registered under `uri`;
        nothing happens for an unknown uri. Only the routed resource is restamped. */
    method Update(uri: string, now: real)
      requires Valid()
      modifies this`outbox, Routed(uri)`lastUpdateDate
      ensures Valid()
      ensures resources == old(resources) && View() == old(View())
      ensures outbox == old(outbox) + Fanout(old(View()), uri)
      ensures uri in resources ==> resources[uri].lastUpdateDate == now
    {
      if uri in resources {
        resources[uri].Update(now);
      }
    }

    /** `ConsistencyServer.watch`: create the resource on first use, then append
        `client` to its subscribers. */
    method Watch(client: Client, uri: string, now: real)
      requires Valid()
      modifies this`resources, resources.Values`clients
      ensures Valid()
      ensures View() == Watched(old(View()), client, uri)
      ensures outbox == old(outbox)
      ensures uri in old(resources) ==> resources == old(resources)
      ensures uri !in old(resources) ==>
                fresh(resources[uri]) && resources == old(resources)[uri := resources[uri]]
                && resources[uri].lastUpdateDate == now
    {
      ghost var v0 := View();
      ghost var res0 := resources;
      assert forall k | k in res0 :: res0[k].uri == k && res0[k].server == this && res0[k].clients == v0[k];
      var r: Resource;
      if uri !in resources {
        r := new Resource(uri, this, now);
        resources := resources[uri := r];
        assert resources == old(resources)[uri := r];
      } else {
        r := resources[uri];
      }
      ghost var res1 := resources;
      assert res1[uri] == r;
      r.AddClient(client);
      assert forall k | k in res0 && k != uri :: res0[k] != r && res0[k].clients == v0[k];
      WatchedState(this, client, uri, v0);
      assert old(View()) == v0 && resources == res1;
    }

    /** `watch` as the docstrings of `stop_watching` and `onClose` intend it: the
        resource is also recorded in the client's own list, so that stopping to watch
        undoes the subscription. Not what the source does; see `Scenarios`. */
    method WatchRecorded(client: Client, uri: string, now: real)
      requires Valid()
      modifies this`resources, resources.Values`clients, client`resources
      ensures Valid()
      ensures View() == Watched(old(View()), client, uri)
      ensures outbox == old(outbox)
      ensures uri in old(resources) ==> resources == old(resources)
      ensures uri !in old(resources) ==>
                fresh(resources[uri]) && resources == old(resources)[uri := resources[uri]]
      ensures uri in resources && client.resources == old(client.resources) + [resources[uri]]
    {
      Watch(client, uri, now);
      client.resources := client.resources + [resources[uri]];
    }

    /** `ConsistencyServer.remove_resource`: forget the entry under the resource's
        uri, whichever object it holds; nothing happens if there is none. */
    method RemoveResource(resource: Resource)
      modifies this`resources
      ensures resources == old(resources) - {resource.uri}
      ensures old(Valid()) ==> Valid()
    {
      if resource.uri in resources {
        resources := resources - {resource.uri};
      }
    }

    /** `BackendProtocol.data_received` on a decoded message. Only an update request
        restamps anything, and only the resource it is routed to. */
    method DataReceived(p: Payload, now: real) returns (err: Option<Error>)
      requires Valid()
      modifies this`outbox,
               (if BackendCommand(p).Success? && BackendCommand(p).value.UpdateCmd?
                then Routed(BackendCommand(p).value.uri) else {})`lastUpdateDate
      ensures Valid()
      ensures resources == old(resources) && View() == old(View())
      ensures err == (if BackendCommand(p).Failure? then Some(BackendCommand(p).error) else None)
      ensures outbox == old(outbox) + (if BackendCommand(p).Success? && BackendCommand(p).value.UpdateCmd?
                                       then Fanout(old(View()), BackendCommand(p).value.uri) else [])
      ensures BackendCommand(p).Success? && BackendCommand(p).value.UpdateCmd? && BackendCommand(p).value.uri in resources
              ==> resources[BackendCommand(p).value.uri].lastUpdateDate == now
    {
      var cmd := BackendCommand(p);
      match cmd
      case Failure(e) => err := Some(e);
      case Success(c) =>
        err := None;
        if c.UpdateCmd? {
          Update(c.uri, now);
        }
    }

    /** `ClientProtocol.onMessage` for the connection whose session is `client`. */
    method OnMessage(client: Client, f: Frame, now: real) returns (err: Option<Error>)
      requires Valid()
      modifies this`resources, resources.Values`clients
      ensures Valid()
      ensures outbox == old(outbox)
      ensures err == (if ClientCommand(f).Failure? then Some(ClientCommand(f).error) else None)
      ensures var cmd := ClientCommand(f);
              if cmd.Success? && cmd.value.WatchCmd? then
                View() == Watched(old(View()), client, cmd.value.uri)
                && (cmd.value.uri in old(resources) ==> resources == old(resources))
                && (cmd.value.uri !in old(resources) ==>
                      fresh(resources[cmd.value.uri])
                      && resources == old(resources)[cmd.value.uri := resources[cmd.value.uri]])
              else resources == old(resources) && View() == old(View())
    {
      var cmd := ClientCommand(f);
      match cmd
      case Failure(e) => err := Some(e);
      case Success(c) =>
        err := None;
        if c.WatchCmd? {
          Watch(client, c.uri, now);
        }
    }
  }
}
