# Consistency server: subscription registry and fan-out, in Dafny

This project models the core of the consistency server. The server tells connected
web clients that a resource they display has changed on the backend. Clients watch
resources by uri over a WebSocket connection. A backend reports changes over a plain
socket. Each change is fanned out as one `invalidate` push per subscription.

The model has four modules:

- `Lists`: `list.remove` and the first-occurrence index it relies on.
- `Messages`: decoded messages, the two dispatch rules, and the `invalidate` push.
- `Registry`: the registry as values. It is a map from uri to an ordered subscriber
  list, with the effect of `watch` and the pushes one `update` sends. The lemmas
  about watching twice, fan-out counts and the watch-then-update round trip live here.
- `Server`: the classes `Resource`, `Client` and `ConsistencyServer`. They update
  their state in place.
  - `ConsistencyServer.resources` is a `map` field that `Watch` and `RemoveResource`
    reassign.
  - `Resource.clients` is a `seq` field that `AddClient` and `RemoveClient` reassign.
  - `Resource.Update` and `Client.StopWatching` are loops.
  - Every push is appended to `ConsistencyServer.outbox`, in the order it was sent.
  - `ConsistencyServer.Valid()` is the registry invariant: every key holds a resource
    whose uri is that key, which belongs to this server and has at least one subscriber.
  - Every method that changes the registry preserves `Valid()`.
  - `Watch`, `WatchRecorded`, `Update`, `DataReceived` and `OnMessage` tie `View()`
    (uri to subscriber list) to the functions of `Registry`.
  - `RemoveClient` and `StopWatching` state their effect on the subscriber lists and
    the registry directly. For `StopWatching` that effect is the value-level run
    `StopWatchingSteps`, and lemmas characterise that run.
- `Scenarios`: whole runs from an empty server on concrete messages, and one
  property of the backend handler on any valid server (`OthersKeepTheirStamp`).

Exceptions are error values (`Option<Error>` / `Result`), not preconditions:

- `KeyError`: the message has no "message" key. Or it is an update or watch
  request with no "data" key, or whose "data" has no "uri" key.
- `ValueError`: `list.remove` of a client that is not subscribed.

The clock (`time.time()`) is a `now: real` parameter.

Source behaviour the model keeps:

- `remove_client` of a client that is not subscribed raises ValueError, and
  `stop_watching` stops at that point.
- `stop_watching` does not clear the client's list. So a second call fails with
  ValueError when the first one took the client's last entry out of a listed
  resource (`Server.StopWatchingTwice`).
- A message without a key the handler reads raises KeyError out of the handler.

## Model

| member | source | states |
|---|---|---|
| `Lists.IndexOf` | consistency_server.py:66 | the index `list.remove` uses is an occurrence of the element, and no earlier position holds it |
| `Lists.RemoveFirst` | consistency_server.py:66 | `list.remove` shortens the list by one and takes away exactly one copy of the element (multiset difference) |
| `Lists.RemoveFirstKeepsOrder` | consistency_server.py:66 | only the first occurrence goes; the elements before and after it keep their order |
| `Lists.RemoveFirstEmpty` | consistency_server.py:66-69 | the list becomes empty after `list.remove(x)` exactly when it was `[x]` |
| `Messages.BackendCommand` | consistency_server.py:124-127 | an update command comes only from `{"message": "update", "data": {"uri": u}}` for its uri; the backend never yields a watch; a failure is a KeyError for a missing "message" or an update without a uri |
| `Messages.ClientCommand` | consistency_server.py:164-168 | a watch command comes only from the text frame `{"message": "watch", "data": {"uri": u}}` for its uri; a client never yields an update; a failure is a KeyError on a text frame without "message" or a watch without a uri |
| `Messages.InvalidateMessage` | consistency_server.py:143 | the push is `{"message": "invalidate", "data": {"uri": uri}}` for the resource's uri |
| `Messages.BackendUpdateIff` | consistency_server.py:124-127 | a backend message leads to `update(u)` if and only if it is `{"message": "update", "data": {"uri": u}}` |
| `Messages.BackendOtherMessagesIgnored` | consistency_server.py:124-127 | another "message" value is ignored whatever its data; KeyError exactly when "message" is absent, or it is "update" and the uri is absent |
| `Messages.ClientWatchIff` | consistency_server.py:164-168 | a client frame leads to `watch(client, u)` if and only if it is the text frame `{"message": "watch", "data": {"uri": u}}`; a binary frame is ignored |
| `Messages.ClientOtherMessagesIgnored` | consistency_server.py:164-168 | a text frame with another "message" value is ignored; KeyError exactly for text frames without "message", or "watch" without a uri |
| `Registry.Watched` | consistency_server.py:218-224 | watch makes `u` a key, leaves every other entry as it was, and ends `u`'s list with `c`, one entry longer than before |
| `Registry.Invalidations` | consistency_server.py:46-53 | one push per list entry, in list order, each the invalidate message for the resource's uri |
| `Registry.Fanout` | consistency_server.py:213-216 | an update of an unregistered uri sends nothing; otherwise one push per subscriber entry |
| `Registry.RecipientsOfInvalidations` | consistency_server.py:52-53 | the recipients of the fan-out are exactly the subscriber list, in order |
| `Registry.FanoutCount` | consistency_server.py:213-216 | a client receives as many invalidations as it has entries in the list; a client that does not watch the uri receives none |
| `Registry.WatchKeepsSubscribed` | consistency_server.py:221-224 | watch keeps every registered uri with a non-empty subscriber list |
| `Registry.WatchNew` | consistency_server.py:221-224 | watching an unregistered uri registers it with the single subscriber `[c]` |
| `Registry.WatchExisting` | consistency_server.py:221-224 | watching a registered uri appends `c` after the existing subscribers |
| `Registry.WatchTwice` | consistency_server.py:55-59 | watching twice adds two entries for the client (no deduplication) and two more invalidations per update |
| `Registry.WatchThenUpdate` | consistency_server.py:213-224 | after `watch(c, u)`, `update(u)` sends the previous pushes and then exactly one to `c` |
| `Registry.WatchOtherUri` | consistency_server.py:218-224 | watching one uri does not change what an update of another uri sends |
| `Server.RemoveClientStep` | consistency_server.py:61-69 | remove_client as a step on values: ValueError with no change when absent; otherwise the first occurrence goes, and the uri leaves the registry exactly when the list becomes empty |
| `Server.StopWatchingSteps` | consistency_server.py:94-99 | stop_watching as steps on values, in list order, stopping at the first error; the registry only shrinks |
| `Server.StopWatchingStepsStop` | consistency_server.py:98-99 | after a failing remove_client, the later resources in the list are not touched |
| `Server.StopWatchingLeavesEach` | consistency_server.py:94-99 | for a list without duplicates whose resources all have `c` as a subscriber, stop_watching succeeds; `c` loses its first entry in each of them and every other list is unchanged |
| `Server.StopWatchingLeavesAll` | consistency_server.py:94-99 | for any list, duplicates allowed, in which `c` has at least as many entries in each resource as the resource occurs: stop_watching succeeds, `c` loses exactly that many entries in each listed resource (as a multiset), and every other list is unchanged |
| `Server.StopWatchingSucceeds` | consistency_server.py:94-99 | under the same condition, no remove_client raises ValueError |
| `Server.StopWatchingLeavesOne` | consistency_server.py:94-99 | under the same condition, the list of one resource loses as many copies of `c` as the resource occurs in the list, and nothing else |
| `Server.StopWatchingKeepsOthers` | consistency_server.py:94-99 | the list of a resource not in the client's list is left alone, whether the run succeeds or not |
| `Server.StopWatchingShortens` | consistency_server.py:94-99 | under the same condition, each list becomes shorter by the number of times its resource occurs in the client's list |
| `Server.StopWatchingUnregisters` | consistency_server.py:61-99 | under the same condition, duplicates allowed, the run succeeds and the registry loses exactly the uris of the resources whose list loses every entry (its length equals the resource's number of occurrences), and keeps every other entry |
| `Server.StopWatchingTwice` | consistency_server.py:94-99 | with a single entry, a first stop_watching succeeds and a second one fails with ValueError and changes nothing |
| `Server.Client.constructor` | consistency_server.py:87-89 | a new client session watches no resources |
| `Server.Client.StopWatching` | consistency_server.py:94-99 | the loop's effect on the touched subscriber lists, the registry and the error equals `StopWatchingSteps`, so `StopWatchingLeavesEach`, `StopWatchingLeavesAll` and `StopWatchingUnregisters` hold of it; the registry invariant is preserved |
| `Server.Client.RemoveFrom` | consistency_server.py:98-99 | one iteration: the touched lists, the registry and the error change as `RemoveClientStep` says; the registry invariant is preserved |
| `Server.Resource.constructor` | consistency_server.py:40-44 | a new resource has the given uri and server, no subscribers, and the current time |
| `Server.Resource.Update` | consistency_server.py:46-53 | stamps the time and appends exactly `Invalidations(clients, uri)` to the outbox; the subscriber list is unchanged |
| `Server.Resource.AddClient` | consistency_server.py:55-59 | appends the client at the end of the list |
| `Server.Resource.RemoveClient` | consistency_server.py:61-69 | ValueError and no change when the client is absent; otherwise removes its first occurrence and drops the uri from the registry exactly when the list becomes empty; the registry invariant is preserved |
| `Server.ConsistencyServer.constructor` | consistency_server.py:191-193 | the registry starts empty and satisfies its invariant |
| `Server.ConsistencyServer.Invalidate` | consistency_server.py:138-147 | appends one invalidate push for the resource's uri to the client |
| `Server.ConsistencyServer.Update` | consistency_server.py:213-216 | the registry and every subscriber list are unchanged; the outbox grows by `Fanout(old view, uri)`, which is nothing for an unknown uri; only the routed resource is restamped, with the current time |
| `Server.ConsistencyServer.Watch` | consistency_server.py:218-224 | the view becomes `Watched(old view, client, uri)`; a new resource is created only for an unregistered uri, and no push is sent; the invariant is preserved |
| `Server.ConsistencyServer.WatchRecorded` | consistency_server.py:218-224 | corrected watch: the same registry effect as `Watch`, and the resource is recorded in the client's list |
| `Server.ConsistencyServer.RemoveResource` | consistency_server.py:226-232 | deletes only the key of the resource's uri; a no-op when the uri is absent; the registry invariant is preserved |
| `Server.ConsistencyServer.DataReceived` | consistency_server.py:118-127 | an update request fans out and restamps as `update(uri)` does; other messages and KeyErrors change neither the registry, the outbox nor any timestamp |
| `Server.ConsistencyServer.OnMessage` | consistency_server.py:155-168 | a watch request changes the view as `watch(client, uri)` does, keeps every registered resource object and creates one only for an unregistered uri; binary frames, other messages and KeyErrors leave the registry map and the view unchanged; no push is sent |
| `Scenarios.OthersKeepTheirStamp` | consistency_server.py:213-216 | a backend message that is not an update of `k` leaves the resource under `k` and its timestamp as they were |
| `Scenarios.WatchBoth` | consistency_server.py:164-168 | after A sends a watch for r1 and B a watch for r2 to an empty server, the view is `{r1: [A], r2: [B]}`, A and B are distinct, and nothing was pushed |
| `Scenarios.UpdateReachesOnlyWatchers` | consistency_server.py:213-224 | A watches r1 and B watches r2, A and B distinct; updating r1 sends exactly one invalidate for r1, to A, and no push to B |
| `Scenarios.WatchRecordedOnce` | consistency_server.py:218-224 | with the corrected watch, A's subscription to r1 is recorded both in r1's list and in A's own list |
| `Scenarios.DisconnectAsWritten` | consistency_server.py:89-99 | as written: after A watches r1 and stops watching, r1 still has A as its subscriber, and the next update still pushes to A |
| `Scenarios.DisconnectCorrected` | consistency_server.py:89-99 | corrected: after A watches r1 (recorded) and stops watching, the registry is empty and the next update sends nothing |

## Left out

- Event loop and servers (`create_server`, `run_forvever`, `close`): network plumbing. The server is passed explicitly instead of through the global `CONSISTENCY_SERVER`.
- `__main__`, argparse and the SIGINT handler: process glue.
- WebSocket framing, `sendMessage`, `onConnect`: a foreign library. A send is an append to `outbox`. The `Client` constructor stands for the session that `onConnect` creates. Pushes are addressed to the `Client`, not to its protocol object.
- `onClose` and `Client.__del__`: `onClose` only deletes its reference to the session. Cleanup would run when the garbage collector finalises the session, which is not a deterministic step. A session that watches anything is still referenced from `Resource._clients`, so it is never finalised. `StopWatching` models what `__del__` would run.
- JSON and UTF-8 encoding and decoding: library calls. Messages are already-decoded `Payload` values. Undecodable bytes, top-level JSON that is not an object, a "data" that is not an object (TypeError) and non-string "message" or "uri" values are not modelled.
- A send that raises part-way through the fan-out: transport errors are not modelled. The fan-out loop of `Resource.update` has no error handling, so such a send would end it for the later subscribers. The model adds no per-subscriber isolation either.
- Exception propagation beyond the handler: errors are returned. What asyncio or the WebSocket library then does with the connection is not modelled.
- `time.time()`: a float wall clock. It is the `now` parameter.
- `Server.Client.StopWatching`: requires every resource in the client's list to belong to one server `srv`, because the process has a single `ConsistencyServer`.
- `Server.ConsistencyServer.Valid`: states one direction of "registered if and only if subscribed". A resource built outside the registry could hold subscribers without being registered. No entry point (watch, update, the two handlers, stop_watching) builds one, but `RemoveResource` on a resource that still has subscribers, or `Resource.AddClient` on an unregistered resource, would.
- testing_backend.py is not part of this model. It is a one-shot socket send with no logic.

## Findings

| source | as written | input that shows it | evidently intended | confidence | as-written member | corrected member |
|---|---|---|---|---|---|---|
| consistency_server.py:89-99, 170-176, 218-224 | `watch` adds the client to the resource but never adds the resource to `Client._resources`, so `stop_watching` (run when the session goes away) loops over an empty list | client A sends `watch` for "r1", its session stops watching, then the backend sends `update` for "r1": "r1" stays registered with A and A is still sent an invalidate | the docstrings of `stop_watching` and `onClose` say the client is unregistered from every resource it watched: "r1" leaves the registry and the update sends nothing. Recording the resource in `watch` is not enough on its own: `Resource._clients` keeps a subscribed session reachable, so deleting the reference at line 176 never runs `__del__` (lines 91-92). `onClose` must call `stop_watching` itself, and `stop_watching` should then clear the list, or a later `__del__` would run it a second time and raise ValueError (`Server.StopWatchingTwice`) | high; not executed | `Scenarios.DisconnectAsWritten` | `Server.ConsistencyServer.WatchRecorded` |

The dispatch rule `OnMessage` keeps calling `Watch` as the source does. `WatchRecorded` is the corrected operation. `DisconnectCorrected` proves the intended outcome for it, with `stop_watching` called explicitly as the corrected `onClose` would.
