/** Whole runs of the server, from an empty registry, on concrete messages. */
module Scenarios {
  import opened Lists
  import opened Messages
  import opened Registry
  import opened Server

  /** Client A watches "r1", then client B watches "r2", both over the client channel. */
  method WatchBoth() returns (srv: ConsistencyServer, a: Client, b: Client)
    ensures a != b
    ensures srv.Valid() && srv.View() == map["r1" := [a], "r2" := [b]]
    ensures srv.outbox == []
    ensures fresh(srv) && fresh(srv.resources.Values)
  {
    srv := new ConsistencyServer();
    a := new Client();
    b := new Client();
    ClientWatchIff(Text(WatchRequest("r1")), "r1");
    ClientWatchIff(Text(WatchRequest("r2")), "r2");
    ghost var v0 := srv.View();
    assert v0 == map[];
    var e1 := srv.OnMessage(a, Text(WatchRequest("r1")), 0.0);
    ghost var v1 := srv.View();
    assert v1 == Watched(v0, a, "r1");
    WatchNew(v0, a, "r1");
    assert v1 == map["r1" := [a]];
    var e2 := srv.OnMessage(b, Text(WatchRequest("r2")), 0.0);
    assert srv.View() == Watched(v1, b, "r2");
    WatchNew(v1, b, "r2");
  }

  /** Client A watches "r1", client B watches "r2"; the backend updates "r1". A gets
      exactly one invalidation for "r1" and B gets nothing. */
  method UpdateReachesOnlyWatchers() returns (srv: ConsistencyServer, a: Client, b: Client)
    ensures a != b
    ensures srv.resources.Keys == {"r1", "r2"}
    ensures srv.outbox == [Push(a, InvalidateMessage("r1"))]
    ensures forall p | p in srv.outbox :: p.to != b
  {
    srv, a, b := WatchBoth();
    BackendUpdateIff(UpdateRequest("r1"), "r1");
    assert Fanout(srv.View(), "r1") == [Push(a, InvalidateMessage("r1"))];
    var e := srv.DataReceived(UpdateRequest("r1"), 1.0);
  }

  /** Any backend message other than an update of `k` leaves the timestamp of the
      resource registered under `k` as it was: an update of another uri, of an
      unknown uri, an ignored message or one that raises KeyError. */
  method OthersKeepTheirStamp(srv: ConsistencyServer, k: string, p: Payload, now: real)
    requires srv.Valid() && k in srv.resources
    requires BackendCommand(p) != Success(UpdateCmd(k))
    modifies srv`outbox, srv.resources.Values`lastUpdateDate
    ensures k in srv.resources && srv.resources[k] == old(srv.resources[k])
    ensures srv.resources[k].lastUpdateDate == old(srv.resources[k].lastUpdateDate)
  {
    var e := srv.DataReceived(p, now);
  }

  /** As written: A watches "r1", and then its session stops watching. Nothing ever
      put "r1" in A's list, so even then "r1" stays registered with A as its
      subscriber, and the next update still pushes to A. */
  method DisconnectAsWritten() returns (srv: ConsistencyServer, a: Client, err: Option<Error>)
    ensures err == None
    ensures "r1" in srv.resources && srv.resources["r1"].clients == [a]
    ensures srv.outbox == [Push(a, InvalidateMessage("r1"))]
  {
    srv := new ConsistencyServer();
    a := new Client();
    var e1 := srv.OnMessage(a, Text(WatchRequest("r1")), 0.0);
    err := a.StopWatching(srv);
    var e2 := srv.DataReceived(UpdateRequest("r1"), 1.0);
  }

  /** A watches "r1" through the corrected watch, which records "r1" in A's list. */
  method WatchRecordedOnce() returns (srv: ConsistencyServer, a: Client, ghost r: Resource)
    ensures srv.Valid() && srv.outbox == []
    ensures srv.resources == map["r1" := r] && r.clients == [a] && a.resources == [r]
    ensures r.server == srv
    ensures fresh(srv) && fresh(r)
  {
    srv := new ConsistencyServer();
    a := new Client();
    srv.WatchRecorded(a, "r1", 0.0);
    WatchNew(map[], a, "r1");
    r := srv.resources["r1"];
    assert srv.View()["r1"] == [a];
  }

  /** Corrected: with the resource recorded in A's list, stopping to watch removes
      A from "r1", "r1" leaves the registry, and the next update is a no-op. */
  method DisconnectCorrected() returns (srv: ConsistencyServer, a: Client, err: Option<Error>)
    ensures err == None
    ensures srv.resources == map[] && srv.outbox == []
  {
    ghost var r;
    srv, a, r := WatchRecordedOnce();
    ghost var s0 := a.Touched(srv);
    assert s0.lists[r] == [a] && [r][..0] == [];
    assert StopWatchingSteps(s0, [r], a) == RemoveClientStep(s0, r, a);
    assert RemoveFirst([a], a) == [];
    err := a.StopWatching(srv);
    assert srv.resources == map[];
    var e2 := srv.DataReceived(UpdateRequest("r1"), 1.0);
  }
}
