/** What each event does to the descriptors and the pools, case by case and without the functions of the table. */
module PoolOutcome {
  import opened Text
  import opened PoolSpec

  // ---------------------------------------------------------------------
  // Requests

  /** An idle connection is kept for the key of the route. */
  ghost predicate HasIdle(t: Table, route: Route) { route.keepalive && route.key in t.pools && t.pools[route.key] != [] }

  /** The one put in last. */
  ghost function LastIdle(t: Table, route: Route): Idle
    requires HasIdle(t, route)
  {
    t.pools[route.key][|t.pools[route.key]| - 1]
  }

  ghost function WithoutLast(t: Table, route: Route): map<string, seq<Idle>>
    requires HasIdle(t, route)
  {
    t.pools[route.key := t.pools[route.key][..|t.pools[route.key]| - 1]]
  }

  /** The client is served by this upstream. */
  ghost predicate Served(t: Table, u: Table, client: int, fd: int, route: Route, websocket: bool) {
    u.proxied == t.proxied[client := Exchange(fd, route, false, websocket)] && u.owner == t.owner[fd := client]
  }

  /** An idle connection of the route is reused exactly when it is alive: it leaves the pool and nothing is opened or closed.
      A dead one is closed.  Otherwise the connection that could be made is used, and without one nothing is served. */
  lemma RequestOutcome(t: Table, client: int, route: Route, websocket: bool, alive: bool, made: Option<int>)
    requires Owned(t) && Enabled(t, Requested(client, route, websocket, alive, made))
    ensures var u := Step(t, Requested(client, route, websocket, alive, made));
            && u.clients == t.clients && !u.badClose
            && (HasIdle(t, route) && alive ==>
                  u.open == t.open && u.pools == WithoutLast(t, route) && Served(t, u, client, LastIdle(t, route).fd, route, websocket))
            && (HasIdle(t, route) && !alive ==> u.pools == WithoutLast(t, route))
            && (!HasIdle(t, route) ==> u.pools == t.pools)
            && (!(HasIdle(t, route) && alive) ==>
                  var left := if HasIdle(t, route) then t.open - {LastIdle(t, route).fd} else t.open;
                  if made.Some? then u.open == left + {made.value} && Served(t, u, client, made.value, route, websocket)
                  else u.open == left && u.proxied == t.proxied && u.owner == t.owner)
  {
    hide Partition;
    PartitionNonNegative(t);
    NewestIs(t, route);
    RequestOwned(t, client, route, websocket, alive, made);
    OwnedCloses(t);
    OwnedCloses(Request(t, client, route, websocket, alive, made));
  }

  lemma OwnedCloses(t: Table)
    requires Owned(t)
    ensures !t.badClose
  {
  }

  lemma NewestIs(t: Table, route: Route)
    requires NonNegative(t.pools)
    ensures HasIdle(t, route) ==> Newest(t, route.key) == LastIdle(t, route).fd >= 0 && Take(t, route.key) == t.(pools := WithoutLast(t, route))
    ensures route.keepalive && !HasIdle(t, route) ==> Newest(t, route.key) == -1 && Take(t, route.key) == t
  {
    if HasIdle(t, route) {
      assert At(t.pools, route.key, |t.pools[route.key]| - 1, LastIdle(t, route).fd);
      assert Pooled(t.pools, LastIdle(t, route).fd);
    }
  }

  // ---------------------------------------------------------------------
  // Ends of exchanges

  /** The upstream may be used again and there is a place for it. */
  ghost predicate GoesIdle(t: Table, x: Exchange) {
    x.poolable && !x.websocket && (if x.route.key in t.pools then |t.pools[x.route.key]| else 0) < x.route.poolSize
  }

  /** The idle connections of a key. */
  ghost function IdleOf(t: Table, key: string): seq<Idle> { if key in t.pools then t.pools[key] else [] }

  /** The upstream comes last into the pool of its route with the time and the timeout of the route, or is closed; the
      client is closed unless the response allows another request and the client wants to send one. */
  lemma FinishOutcome(t: Table, client: int, keepAlive: bool, now: int)
    requires Owned(t)
    ensures var u := Step(t, Finished(client, keepAlive, now));
            if client !in t.proxied then u == t
            else
              var x := t.proxied[client];
              var drops := client in t.clients && !(x.poolable && keepAlive);
              && u.proxied == t.proxied - {client} && u.owner == t.owner - {x.upstream}
              && (forall key :: IdleOf(u, key) == IdleOf(t, key) + if key == x.route.key && GoesIdle(t, x) then [Idle(x.upstream, now, x.route.timeout)] else [])
              && u.open == t.open - (if GoesIdle(t, x) then {} else {x.upstream}) - (if drops then {client} else {})
              && u.clients == t.clients - if drops then {client} else {}
  {
    hide Owned, Put, IdleOf;
    if client in t.proxied {
      var x := t.proxied[client];
      var u := t.(owner := t.owner - {x.upstream});
      PutOutcome(u, x.route, x.upstream, now);
      SameIdle(u, t);
      SameIdle(CloseFd(u, x.upstream), t);
      var v := if x.poolable && !x.websocket then Put(u, x.route, x.upstream, now) else CloseFd(u, x.upstream);
      SameIdle(Step(t, Finished(client, keepAlive, now)), v);
      IdleSize(t, x);
    }
  }

  lemma PutOutcome(t: Table, route: Route, fd: int, now: int)
    ensures var u := Put(t, route, fd, now);
            && u.proxied == t.proxied && u.owner == t.owner && u.clients == t.clients
            && u.open == (if |IdleOf(t, route.key)| < route.poolSize then t.open else t.open - {fd})
            && forall key :: IdleOf(u, key) ==
                 IdleOf(t, key) + if key == route.key && |IdleOf(t, route.key)| < route.poolSize then [Idle(fd, now, route.timeout)] else []
  {
  }

  lemma SameIdle(t: Table, u: Table)
    ensures t.pools == u.pools ==> forall key :: IdleOf(t, key) == IdleOf(u, key)
  {
  }

  lemma IdleSize(t: Table, x: Exchange)
    ensures GoesIdle(t, x) <==> x.poolable && !x.websocket && |IdleOf(t, x.route.key)| < x.route.poolSize
  {
  }

  /** A disconnected client is closed and nothing else changes. */
  lemma DisconnectOutcome(t: Table, fd: int)
    ensures var u := Step(t, Disconnected(fd));
            u == if fd in t.clients then t.(clients := t.clients - {fd}, open := t.open - {fd}, badClose := t.badClose || fd !in t.open) else t
  {
  }

  /** An upstream may go to a pool only if its route keeps connections. */
  ghost predicate PoolableAllowed(t: Table) { forall c :: c in t.proxied && t.proxied[c].poolable ==> t.proxied[c].route.keepalive }

  lemma StepPoolable(t: Table, e: Event)
    requires PoolableAllowed(t)
    ensures PoolableAllowed(Step(t, e))
  {
    hide Put, CloseFd, Sweep;
    match e {
      case Finished(client, keepAlive, now) =>
        assert forall c :: c in Step(t, e).proxied ==> c in t.proxied && Step(t, e).proxied[c] == t.proxied[c] by { FinishKeeps(t, client, keepAlive, now); }
      case Swept(now) => SweepMaps(t, now);
      case Disconnected(fd) => KeepsMaps(t, Route("", false, 0, 0), fd, 0);
      case Requested(client, route, websocket, alive, made) => RequestKeeps(t, client, route, websocket, alive, made);
      case _ =>
    }
  }

  lemma FinishKeeps(t: Table, client: int, keepAlive: bool, now: int)
    ensures Cleanup(t, client, keepAlive, now).proxied == t.proxied - {client}
  {
  }

  lemma RequestKeeps(t: Table, client: int, route: Route, websocket: bool, alive: bool, made: Option<int>)
    ensures var u := Request(t, client, route, websocket, alive, made);
            forall c :: c in u.proxied ==> (c in t.proxied && u.proxied[c] == t.proxied[c]) || !u.proxied[c].poolable
  {
  }

  lemma {:induction false} AlwaysAllowed(run: seq<Event>)
    requires Possible(run)
    ensures PoolableAllowed(After(run))
  {
    hide Step, Enabled;
    if run != [] {
      var before := run[..|run| - 1];
      AlwaysAllowed(before);
      StepPoolable(After(before), run[|run| - 1]);
    }
  }

  // ---------------------------------------------------------------------
  // Sweeping

  /** It has been idle for longer than its timeout, if it has one. */
  ghost predicate Overdue(c: Idle, now: int) { 0 < c.timeout < now - c.since }

  /** The places, in order, of the connections that are not overdue. */
  ghost predicate StayAt(places: seq<nat>, conns: seq<Idle>, now: int) {
    && (forall a, b :: 0 <= a < b < |places| ==> places[a] < places[b])
    && (forall k :: 0 <= k < |places| ==> places[k] < |conns|)
    && (forall j :: 0 <= j < |conns| ==> (j in places <==> !Overdue(conns[j], now)))
  }

  ghost predicate Stays(after: seq<Idle>, before: seq<Idle>, now: int) {
    exists places :: StayAt(places, before, now) && |after| == |places| && forall k :: 0 <= k < |after| ==> after[k] == before[places[k]]
  }

  lemma OneMorePlace(places: seq<nat>, conns: seq<Idle>, last: Idle, now: int)
    requires StayAt(places, conns, now)
    ensures StayAt(if Overdue(last, now) then places else places + [|conns|], conns + [last], now)
  {
    assert |conns| !in places;
    var longer := places + [|conns|];
    assert forall j :: j in longer <==> j in places || j == |conns|;
  }

  lemma NoPlaces(now: int)
    ensures StayAt([], [], now)
  {
  }

  lemma OverdueIs(c: Idle, now: int)
    ensures Expired(c, now) <==> Overdue(c, now)
  {
  }

  lemma {:induction false} KeptStays(conns: seq<Idle>, now: int) returns (places: seq<nat>)
    ensures StayAt(places, conns, now)
    ensures var r := Kept(conns, now); |r| == |places| && forall k :: 0 <= k < |r| ==> places[k] < |conns| && r[k] == conns[places[k]]
  {
    hide StayAt, Overdue, Expired;
    if conns == [] {
      NoPlaces(now);
      return [];
    }
    var init, last := conns[..|conns| - 1], conns[|conns| - 1];
    assert conns == init + [last];
    places := KeptStays(init, now);
    OneMorePlace(places, init, last, now);
    OverdueIs(last, now);
    if !Overdue(last, now) {
      places := places + [|init|];
    }
  }

  /** Sweeping closes exactly the overdue connections, and the others stay in their pools and in order. */
  lemma SweepOutcome(t: Table, now: int)
    requires Owned(t)
    ensures var u := Step(t, Swept(now));
            && u.pools.Keys == t.pools.Keys && (forall key :: key in t.pools ==> Stays(u.pools[key], t.pools[key], now))
            && (forall fd :: fd in u.open <==> fd in t.open && !exists key, i :: At(t.pools, key, i, fd) && Overdue(t.pools[key][i], now))
            && u.proxied == t.proxied && u.owner == t.owner && u.clients == t.clients
  {
    hide Partition, StayAt, Kept;
    var u := Sweep(t, now);
    forall key | key in t.pools
      ensures Stays(u.pools[key], t.pools[key], now)
    {
      var places := KeptStays(t.pools[key], now);
    }
    forall fd
      ensures fd in ExpiredFds(t.pools, now) <==> exists key, i :: At(t.pools, key, i, fd) && Overdue(t.pools[key][i], now)
    {
      ExpiredIs(t, now, fd);
    }
  }

  lemma ExpiredIs(t: Table, now: int, fd: int)
    ensures fd in ExpiredFds(t.pools, now) <==> exists key, i :: At(t.pools, key, i, fd) && Overdue(t.pools[key][i], now)
  {
    if fd in ExpiredFds(t.pools, now) {
      var key, c :| key in t.pools && c in t.pools[key] && Expired(c, now) && c.fd == fd;
      var i :| 0 <= i < |t.pools[key]| && t.pools[key][i] == c;
      assert At(t.pools, key, i, fd);
    }
    if exists key, i :: At(t.pools, key, i, fd) && Overdue(t.pools[key][i], now) {
      var key, i :| At(t.pools, key, i, fd) && Overdue(t.pools[key][i], now);
      assert t.pools[key][i] in t.pools[key];
    }
  }

  // ---------------------------------------------------------------------
  // What the system may do

  /** Nothing less: any number that is not open may be a new client or, once a dead connection has been closed, a new
      upstream; any client may send a request, and everything else may happen at any time. */
  lemma AnythingMayHappen(t: Table, fd: int, client: int, route: Route, websocket: bool, alive: bool, flag: bool, now: int)
    requires Owned(t)
    ensures fd > 0 && fd !in t.open ==> Enabled(t, Accepted(fd))
    ensures Enabled(t, Disconnected(fd)) && Enabled(t, HeadersRead(client, flag)) && Enabled(t, Finished(client, flag, now)) && Enabled(t, Swept(now))
    ensures client in t.clients ==> Enabled(t, Requested(client, route, websocket, alive, None))
    ensures client in t.clients && fd >= 0 && (fd !in t.open || (HasIdle(t, route) && !alive && fd == LastIdle(t, route).fd)) ==>
              Enabled(t, Requested(client, route, websocket, alive, Some(fd)))
  {
    hide Partition;
    PartitionNonNegative(t);
    NewestIs(t, route);
  }
}
