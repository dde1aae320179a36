/** The registry as values: a map from uri to the ordered list of subscribers, the
    effect of `watch` on it, and the pushes one `update` fans out. The classes in
    module Server are proved to follow these functions. */
module Registry {
  import opened Messages

  /** One `sendMessage` of the push channel: the message and the client it goes to. */
  datatype Push<C> = Push(to: C, message: Payload)

  /** Every registered uri has at least one subscriber. */
  predicate Subscribed<C>(v: map<string, seq<C>>)
  {
    forall u | u in v :: v[u] != []
  }

  /** `ConsistencyServer.watch(c, u)` on the registry: create an empty entry for `u`
      if there is none, then append `c` (no check for an existing subscription). */
  function Watched<C>(v: map<string, seq<C>>, c: C, u: string): (w: map<string, seq<C>>)
    ensures w.Keys == v.Keys + {u}
    ensures forall k | k in v && k != u :: w[k] == v[k]
    ensures |w[u]| == (if u in v then |v[u]| else 0) + 1 && w[u][|w[u]| - 1] == c
  {
    v[u := (if u in v then v[u] else []) + [c]]
  }

  /** The invalidations `Resource.update` sends for `cs`, one per entry, in order. */
  function Invalidations<C>(cs: seq<C>, u: string): (ps: seq<Push<C>>)
    ensures |ps| == |cs|
    ensures forall i | 0 <= i < |cs| :: ps[i] == Push(cs[i], InvalidateMessage(u))
  {
    if cs == [] then [] else [Push(cs[0], InvalidateMessage(u))] + Invalidations(cs[1..], u)
  }

  /** The pushes `ConsistencyServer.update(u)` causes: those of the resource
      registered under `u`, or none when `u` is unknown. */
  function Fanout<C>(v: map<string, seq<C>>, u: string): (ps: seq<Push<C>>)
    ensures u !in v ==> ps == []
    ensures u in v ==> |ps| == |v[u]|
  {
    if u in v then Invalidations(v[u], u) else []
  }

  /** The clients a sequence of pushes is addressed to, in order. */
  function Recipients<C>(ps: seq<Push<C>>): (cs: seq<C>)
    ensures |cs| == |ps|
  {
    if ps == [] then [] else [ps[0].to] + Recipients(ps[1..])
  }

  lemma InvalidationsAppend<C>(cs: seq<C>, c: C, u: string)
    ensures Invalidations(cs + [c], u) == Invalidations(cs, u) + [Push(c, InvalidateMessage(u))]
  {
    var l, r := Invalidations(cs + [c], u), Invalidations(cs, u) + [Push(c, InvalidateMessage(u))];
    assert |l| == |r|;
    forall i | 0 <= i < |l| ensures l[i] == r[i] {
      if i < |cs| { assert (cs + [c])[i] == cs[i]; }
    }
  }

  /** Fan-out reaches each subscriber as often as it appears in the list, in list
      order, and no one else. */
  lemma {:induction false} RecipientsOfInvalidations<C>(cs: seq<C>, u: string)
    ensures Recipients(Invalidations(cs, u)) == cs
  {
    if cs != [] {
      RecipientsOfInvalidations(cs[1..], u);
      assert Invalidations(cs, u)[1..] == Invalidations(cs[1..], u);
    }
  }

  /** The number of invalidations client `c` receives from `update(u)` is the number
      of times it watched `u`; in particular a client that does not watch `u`
      receives nothing. */
  lemma FanoutCount<C>(v: map<string, seq<C>>, u: string, c: C)
    ensures multiset(Recipients(Fanout(v, u)))[c] == if u in v then multiset(v[u])[c] else 0
    ensures u !in v || c !in v[u] ==> forall p | p in Fanout(v, u) :: p.to != c
  {
    if u in v {
      RecipientsOfInvalidations(v[u], u);
      forall p | p in Fanout(v, u) ensures c !in v[u] ==> p.to != c {
        var i :| 0 <= i < |Fanout(v, u)| && Fanout(v, u)[i] == p;
        assert p.to == v[u][i];
      }
    }
  }

  /** `watch` keeps every registered uri subscribed. */
  lemma WatchKeepsSubscribed<C>(v: map<string, seq<C>>, c: C, u: string)
    requires Subscribed(v)
    ensures Subscribed(Watched(v, c, u))
  {
  }

  /** `watch` on an unknown uri registers it with `c` as its only subscriber. */
  lemma WatchNew<C>(v: map<string, seq<C>>, c: C, u: string)
    requires u !in v
    ensures Watched(v, c, u)[u] == [c]
  {
  }

  /** `watch` on a known uri appends `c` after the existing subscribers. */
  lemma WatchExisting<C>(v: map<string, seq<C>>, c: C, u: string)
    requires u in v
    ensures Watched(v, c, u)[u] == v[u] + [c]
  {
  }

  /** Watching twice is not deduplicated: the list grows by two entries for `c`,
      and the next update sends `c` two invalidations more. */
  lemma WatchTwice<C>(v: map<string, seq<C>>, c: C, u: string)
    ensures Watched(Watched(v, c, u), c, u).Keys == v.Keys + {u}
    ensures multiset(Watched(Watched(v, c, u), c, u)[u])[c] == (if u in v then multiset(v[u])[c] else 0) + 2
    ensures multiset(Recipients(Fanout(Watched(Watched(v, c, u), c, u), u)))[c]
         == multiset(Recipients(Fanout(v, u)))[c] + 2
  {
    var w := Watched(Watched(v, c, u), c, u);
    var old_ := if u in v then v[u] else [];
    assert w[u] == old_ + [c] + [c];
    FanoutCount(v, u, c);
    FanoutCount(w, u, c);
  }

  /** Round trip of the two channels: after `watch(c, u)`, `update(u)` sends every
      earlier subscriber its invalidation, in order, and then one to `c`. */
  lemma WatchThenUpdate<C>(v: map<string, seq<C>>, c: C, u: string)
    ensures Fanout(Watched(v, c, u), u) == Fanout(v, u) + [Push(c, InvalidateMessage(u))]
  {
    InvalidationsAppend(if u in v then v[u] else [], c, u);
  }

  /** Watching one uri does not change what an update of another uri sends. */
  lemma WatchOtherUri<C>(v: map<string, seq<C>>, c: C, u: string, u': string)
    requires u != u'
    ensures Fanout(Watched(v, c, u), u') == Fanout(v, u')
  {
  }
}
