/** Who owns which descriptor: clients, upstream connections in use, and idle ones kept for reuse. */
module PoolSpec {
  import opened Text

  datatype Idle = Idle(fd: int, since: int, timeout: int)

  /** What a location says about its upstream; `key` is the host and port. */
  datatype Route = Route(key: string, keepalive: bool, poolSize: int, timeout: int)

  datatype Exchange = Exchange(upstream: int, route: Route, poolable: bool, websocket: bool)

  /** `open` is what the kernel has open; `badClose` records a close of anything else. */
  datatype Table = Table(
    proxied: map<int, Exchange>,
    owner: map<int, int>,
    pools: map<string, seq<Idle>>,
    clients: set<int>,
    open: set<int>,
    badClose: bool)

  const EMPTY := Table(map[], map[], map[], {}, {}, false)

  datatype Event =
    | Accepted(fd: int)
    | Disconnected(fd: int)
    | Requested(client: int, route: Route, websocket: bool, alive: bool, made: Option<int>)
    | HeadersRead(client: int, reusable: bool)
    | Finished(client: int, keepAlive: bool, now: int)
    | Swept(now: int)

  // ---------------------------------------------------------------------
  // The idle pools

  function Conns(pools: map<string, seq<Idle>>, key: string): seq<Idle> { if key in pools then pools[key] else [] }

  function CloseFd(t: Table, fd: int): Table {
    t.(open := t.open - {fd}, badClose := t.badClose || fd !in t.open)
  }

  /** The idle connection last put in, if there is one. */
  function Newest(t: Table, key: string): int {
    var conns := Conns(t.pools, key);
    if conns == [] then -1 else conns[|conns| - 1].fd
  }

  function Take(t: Table, key: string): Table {
    var conns := Conns(t.pools, key);
    if conns == [] then t else t.(pools := t.pools[key := conns[..|conns| - 1]])
  }

  /** Keeps a connection for reuse, or closes it if enough are kept. */
  function Put(t: Table, route: Route, fd: int, now: int): Table {
    var conns := Conns(t.pools, route.key);
    if |conns| >= route.poolSize then CloseFd(t.(pools := t.pools[route.key := conns]), fd)
    else t.(pools := t.pools[route.key := conns + [Idle(fd, now, route.timeout)]])
  }

  predicate Expired(c: Idle, now: int) { c.timeout > 0 && now - c.since > c.timeout }

  function Kept(conns: seq<Idle>, now: int): (r: seq<Idle>)
    ensures |r| <= |conns|
    ensures forall c :: c in r <==> c in conns && !Expired(c, now)
  {
    if conns == [] then []
    else
      var last := conns[|conns| - 1];
      var r := Kept(conns[..|conns| - 1], now);
      assert conns == conns[..|conns| - 1] + [last];
      if Expired(last, now) then r else r + [last]
  }

  function ExpiredFds(pools: map<string, seq<Idle>>, now: int): set<int> {
    set key, c | key in pools && c in pools[key] && Expired(c, now) :: c.fd
  }

  /** Every idle connection that has waited too long is closed. */
  function Sweep(t: Table, now: int): Table {
    var gone := ExpiredFds(t.pools, now);
    t.(pools := map key | key in t.pools :: Kept(t.pools[key], now),
       open := t.open - gone,
       badClose := t.badClose || !(gone <= t.open))
  }

  // ---------------------------------------------------------------------
  // Requests

  /** A pooled connection if there is one that is still alive, a new one otherwise. */
  function Obtain(t: Table, route: Route, alive: bool, made: Option<int>): (Table, Option<int>) {
    var pooled := if route.keepalive then Newest(t, route.key) else -1;
    var u := if route.keepalive then Take(t, route.key) else t;
    if pooled >= 0 && alive then (u, Some(pooled))
    else
      var v := if pooled >= 0 then CloseFd(u, pooled) else u;
      if made.Some? then (v.(open := v.open + {made.value}), made) else (v, None)
  }

  function Request(t: Table, client: int, route: Route, websocket: bool, alive: bool, made: Option<int>): Table {
    var (u, upstream) := Obtain(t, route, alive, made);
    if upstream.None? then u
    else
      u.(proxied := u.proxied[client := Exchange(upstream.value, route, false, websocket)],
         owner := u.owner[upstream.value := client])
  }

  /** The end of an exchange: its upstream goes back to the pool or is closed, and the client
      is closed unless it may send another request. */
  function Cleanup(t: Table, client: int, keepAlive: bool, now: int): Table {
    if client !in t.proxied then t
    else
      var x := t.proxied[client];
      var u := t.(owner := t.owner - {x.upstream});
      var v := if x.poolable && !x.websocket then Put(u, x.route, x.upstream, now) else CloseFd(u, x.upstream);
      var w := if client in v.clients && !(x.poolable && keepAlive) then DropClient(v, client) else v;
      w.(proxied := w.proxied - {client})
  }

  function DropClient(t: Table, fd: int): Table {
    if fd in t.clients then CloseFd(t.(clients := t.clients - {fd}), fd) else t
  }

  // ---------------------------------------------------------------------
  // Runs

  /** New descriptors are not open; requests come from clients. */
  predicate Enabled(t: Table, e: Event) {
    match e
    case Accepted(fd) => fd > 0 && fd !in t.open
    case Disconnected(_) => true
    case Requested(client, route, _, alive, made) =>
      client in t.clients && (made.Some? ==> made.value >= 0 && made.value !in AfterDiscard(t, route, alive).open)
    case HeadersRead(_, _) => true
    case Finished(_, _, _) => true
    case Swept(_) => true
  }

  /** The table when the new connection is made. */
  function AfterDiscard(t: Table, route: Route, alive: bool): Table { Obtain(t, route, alive, None).0 }

  function Step(t: Table, e: Event): Table {
    match e
    case Accepted(fd) => t.(open := t.open + {fd}, clients := t.clients + {fd})
    case Disconnected(fd) => DropClient(t, fd)
    case Requested(client, route, websocket, alive, made) => Request(t, client, route, websocket, alive, made)
    case HeadersRead(client, reusable) =>
      if client in t.proxied
      then t.(proxied := t.proxied[client := t.proxied[client].(poolable := t.proxied[client].route.keepalive && reusable)])
      else t
    case Finished(client, keepAlive, now) => Cleanup(t, client, keepAlive, now)
    case Swept(now) => Sweep(t, now)
  }

  // ---------------------------------------------------------------------
  // Ownership

  ghost predicate At(pools: map<string, seq<Idle>>, key: string, i: int, fd: int) {
    key in pools && 0 <= i < |pools[key]| && pools[key][i].fd == fd
  }

  ghost predicate Pooled(pools: map<string, seq<Idle>>, fd: int) { exists key, i :: At(pools, key, i, fd) }

  ghost predicate Distinct(pools: map<string, seq<Idle>>) {
    forall key, i, key', i', fd :: At(pools, key, i, fd) && At(pools, key', i', fd) ==> key == key' && i == i'
  }

  ghost predicate NonNegative(pools: map<string, seq<Idle>>) {
    forall fd :: Pooled(pools, fd) ==> fd >= 0
  }

  /** Every open descriptor has exactly one owner: a client's, an upstream's in use, an idle
      one's, or that of the handler that is just moving it; no idle one is kept twice. */
  ghost predicate Partition(t: Table, moving: set<int>) {
    && !t.badClose
    && (forall fd :: fd in t.open <==> fd in t.clients || fd in t.owner || Pooled(t.pools, fd) || fd in moving)
    && (forall fd :: fd in t.clients ==> fd !in t.owner && !Pooled(t.pools, fd) && fd !in moving)
    && (forall fd :: fd in t.owner ==> fd >= 0 && !Pooled(t.pools, fd) && fd !in moving)
    && (forall fd :: fd in moving ==> fd >= 0 && !Pooled(t.pools, fd))
    && Distinct(t.pools) && NonNegative(t.pools)
  }

  /** The upstream of every exchange leads back to its client. */
  predicate Mapped(t: Table) {
    forall c :: c in t.proxied ==> t.proxied[c].upstream in t.owner && t.owner[t.proxied[c].upstream] == c
  }

  ghost predicate Owned(t: Table) { Partition(t, {}) && Mapped(t) }

  lemma TakePooled(t: Table, key: string)
    requires Distinct(t.pools) && Newest(t, key) >= 0
    ensures var u := Take(t, key);
            && Distinct(u.pools)
            && Pooled(t.pools, Newest(t, key))
            && forall fd :: Pooled(u.pools, fd) <==> Pooled(t.pools, fd) && fd != Newest(t, key)
  {
    var conns := Conns(t.pools, key);
    var last := |conns| - 1;
    var u := Take(t, key);
    assert At(t.pools, key, last, Newest(t, key));
    assert forall k, i, fd :: At(u.pools, k, i, fd) <==> At(t.pools, k, i, fd) && !(k == key && i == last);
    forall fd | Pooled(t.pools, fd) && fd != Newest(t, key)
      ensures Pooled(u.pools, fd)
    {
      var k, i :| At(t.pools, k, i, fd);
      assert At(u.pools, k, i, fd);
    }
  }

  lemma PutPooled(t: Table, route: Route, fd: int, now: int)
    requires Distinct(t.pools) && !Pooled(t.pools, fd)
    ensures var u, full := Put(t, route, fd, now), |Conns(t.pools, route.key)| >= route.poolSize;
            && Distinct(u.pools)
            && forall x :: Pooled(u.pools, x) <==> Pooled(t.pools, x) || (x == fd && !full)
  {
    var u, n := Put(t, route, fd, now), |Conns(t.pools, route.key)|;
    var full := n >= route.poolSize;
    assert forall k, i, x :: At(u.pools, k, i, x) <==> At(t.pools, k, i, x) || (!full && k == route.key && i == n && x == fd);
    if !full {
      assert At(u.pools, route.key, n, fd);
    }
    forall x | Pooled(t.pools, x)
      ensures Pooled(u.pools, x)
    {
      var k, i :| At(t.pools, k, i, x);
      assert At(u.pools, k, i, x);
    }
  }

  predicate NoRepeat(conns: seq<Idle>) {
    forall i, j :: 0 <= i < j < |conns| ==> conns[i].fd != conns[j].fd
  }

  lemma {:induction false} KeptNoRepeat(conns: seq<Idle>, now: int)
    requires NoRepeat(conns)
    ensures NoRepeat(Kept(conns, now))
  {
    if conns != [] {
      var init, last := conns[..|conns| - 1], conns[|conns| - 1];
      KeptNoRepeat(init, now);
      var r := Kept(init, now);
      forall i | 0 <= i < |r|
        ensures r[i].fd != last.fd
      {
        assert r[i] in init;
      }
    }
  }

  lemma KeptAt(t: Table, now: int, key: string, i: int, fd: int) returns (j: int)
    requires At(Sweep(t, now).pools, key, i, fd)
    ensures At(t.pools, key, j, fd) && !Expired(t.pools[key][j], now)
  {
    var c := Kept(t.pools[key], now)[i];
    assert c in t.pools[key];
    j :| 0 <= j < |t.pools[key]| && t.pools[key][j] == c;
  }

  lemma SweepPooled(t: Table, now: int, fd: int)
    requires Distinct(t.pools)
    ensures Pooled(Sweep(t, now).pools, fd) <==> Pooled(t.pools, fd) && fd !in ExpiredFds(t.pools, now)
    ensures fd in ExpiredFds(t.pools, now) ==> Pooled(t.pools, fd)
  {
    var u := Sweep(t, now);
    if Pooled(t.pools, fd) {
      var key, i :| At(t.pools, key, i, fd);
      var c := t.pools[key][i];
      if !Expired(c, now) {
        assert c in Kept(t.pools[key], now);
        var k :| 0 <= k < |u.pools[key]| && u.pools[key][k] == c;
        assert At(u.pools, key, k, fd);
      } else {
        assert fd in ExpiredFds(t.pools, now);
      }
    }
    if fd in ExpiredFds(t.pools, now) {
      var key, c :| key in t.pools && c in t.pools[key] && Expired(c, now) && c.fd == fd;
      var i :| 0 <= i < |t.pools[key]| && t.pools[key][i] == c;
      assert At(t.pools, key, i, fd);
    }
    if Pooled(u.pools, fd) {
      var key, i :| At(u.pools, key, i, fd);
      var j := KeptAt(t, now, key, i, fd);
    }
  }

  lemma SweepDistinct(t: Table, now: int)
    requires Distinct(t.pools)
    ensures Distinct(Sweep(t, now).pools)
  {
    var u := Sweep(t, now);
    forall key, i, key', i', fd | At(u.pools, key, i, fd) && At(u.pools, key', i', fd)
      ensures key == key' && i == i'
    {
      var j := KeptAt(t, now, key, i, fd);
      var j' := KeptAt(t, now, key', i', fd);
      forall a, b | 0 <= a < b < |t.pools[key]|
        ensures t.pools[key][a].fd != t.pools[key][b].fd
      {
        assert At(t.pools, key, a, t.pools[key][a].fd) && At(t.pools, key, b, t.pools[key][b].fd);
      }
      KeptNoRepeat(t.pools[key], now);
      assert u.pools[key] == Kept(t.pools[key], now);
    }
  }

  // ---------------------------------------------------------------------
  // Moving descriptors

  lemma TakePartition(t: Table, key: string)
    requires Partition(t, {}) && Newest(t, key) >= 0
    ensures Partition(Take(t, key), {Newest(t, key)})
  {
    TakePooled(t, key);
    hide Pooled, Distinct, Newest;
  }

  lemma NothingTaken(t: Table, key: string)
    requires NonNegative(t.pools) && Newest(t, key) < 0
    ensures Take(t, key) == t
  {
    var conns := Conns(t.pools, key);
    if conns != [] {
      assert At(t.pools, key, |conns| - 1, Newest(t, key));
      assert Pooled(t.pools, Newest(t, key));
    }
  }

  lemma ClosePartition(t: Table, fd: int)
    requires Partition(t, {fd})
    ensures Partition(CloseFd(t, fd), {})
  {
    hide Pooled, Distinct, NonNegative;
    assert fd in {fd};
  }

  lemma PutPartition(t: Table, route: Route, fd: int, now: int)
    requires Partition(t, {fd})
    ensures Partition(Put(t, route, fd, now), {})
  {
    assert fd in {fd};
    PutPooled(t, route, fd, now);
    hide Pooled, Distinct;
  }

  lemma OpenPartition(t: Table, fd: int)
    requires Partition(t, {}) && fd >= 0 && fd !in t.open
    ensures Partition(t.(open := t.open + {fd}), {fd})
  {
    hide Pooled, Distinct, NonNegative;
  }

  lemma AssignPartition(t: Table, fd: int, client: int)
    requires Partition(t, {fd})
    ensures fd !in t.owner && Partition(t.(owner := t.owner[fd := client]), {})
  {
    hide Pooled, Distinct, NonNegative;
    assert fd in {fd};
  }

  lemma ReleasePartition(t: Table, fd: int)
    requires Partition(t, {}) && fd in t.owner
    ensures Partition(t.(owner := t.owner - {fd}), {fd})
  {
    hide Pooled, Distinct, NonNegative;
  }

  lemma DropPartition(t: Table, fd: int)
    requires Partition(t, {})
    ensures Partition(DropClient(t, fd), {})
  {
    hide Pooled, Distinct, NonNegative;
  }

  lemma SweepPartition(t: Table, now: int)
    requires Partition(t, {})
    ensures Partition(Sweep(t, now), {})
  {
    SweepDistinct(t, now);
    forall fd
      ensures Pooled(Sweep(t, now).pools, fd) <==> Pooled(t.pools, fd) && fd !in ExpiredFds(t.pools, now)
      ensures fd in ExpiredFds(t.pools, now) ==> Pooled(t.pools, fd)
    {
      SweepPooled(t, now, fd);
    }
    hide Pooled, Distinct, ExpiredFds;
  }

  // ---------------------------------------------------------------------
  // Every step keeps the ownership

  lemma ObtainPartition(t: Table, route: Route, alive: bool, made: Option<int>)
    requires Partition(t, {})
    requires made.Some? ==> made.value >= 0 && made.value !in AfterDiscard(t, route, alive).open
    ensures var (u, upstream) := Obtain(t, route, alive, made);
            && Partition(u, if upstream.Some? then {upstream.value} else {})
            && u.proxied == t.proxied && u.owner == t.owner
  {
    hide Partition, Newest, Conns, NonNegative;
    var pooled := if route.keepalive then Newest(t, route.key) else -1;
    var u := if route.keepalive then Take(t, route.key) else t;
    if pooled >= 0 {
      TakePartition(t, route.key);
      if !alive {
        ClosePartition(u, pooled);
        if made.Some? {
          OpenPartition(CloseFd(u, pooled), made.value);
        }
      }
    } else {
      if route.keepalive {
        PartitionNonNegative(t);
        NothingTaken(t, route.key);
      }
      if made.Some? {
        OpenPartition(t, made.value);
      }
    }
  }

  lemma PartitionNonNegative(t: Table)
    requires Partition(t, {})
    ensures NonNegative(t.pools)
  {
  }

  lemma RequestOwned(t: Table, client: int, route: Route, websocket: bool, alive: bool, made: Option<int>)
    requires Owned(t) && Enabled(t, Requested(client, route, websocket, alive, made))
    ensures Owned(Request(t, client, route, websocket, alive, made))
  {
    hide Partition, Obtain;
    ObtainPartition(t, route, alive, made);
    var (u, upstream) := Obtain(t, route, alive, made);
    if upstream.Some? {
      AssignPartition(u, upstream.value, client);
      SamePartition(u.(owner := u.owner[upstream.value := client]), Request(t, client, route, websocket, alive, made));
    }
  }

  /** Ownership does not depend on the exchanges. */
  lemma SamePartition(t: Table, u: Table)
    requires Partition(t, {}) && u == t.(proxied := u.proxied)
    ensures Partition(u, {})
  {
    hide Pooled, Distinct, NonNegative;
  }

  lemma CleanupOwned(t: Table, client: int, keepAlive: bool, now: int)
    requires Owned(t)
    ensures Owned(Cleanup(t, client, keepAlive, now))
  {
    hide Partition, Put, CloseFd, DropClient;
    if client in t.proxied {
      var x := t.proxied[client];
      var u := t.(owner := t.owner - {x.upstream});
      ReleasePartition(t, x.upstream);
      KeepsMaps(u, x.route, x.upstream, now);
      var v := if x.poolable && !x.websocket then Put(u, x.route, x.upstream, now) else CloseFd(u, x.upstream);
      if x.poolable && !x.websocket {
        PutPartition(u, x.route, x.upstream, now);
      } else {
        ClosePartition(u, x.upstream);
      }
      KeepsMaps(v, x.route, client, now);
      DropPartition(v, client);
      var w := if client in v.clients && !(x.poolable && keepAlive) then DropClient(v, client) else v;
      SamePartition(w, Cleanup(t, client, keepAlive, now));
    }
  }

  lemma KeepsMaps(t: Table, route: Route, fd: int, now: int)
    ensures Put(t, route, fd, now).proxied == t.proxied && Put(t, route, fd, now).owner == t.owner
    ensures CloseFd(t, fd).proxied == t.proxied && CloseFd(t, fd).owner == t.owner
    ensures DropClient(t, fd).proxied == t.proxied && DropClient(t, fd).owner == t.owner
  {
  }

  lemma StepOwned(t: Table, e: Event)
    requires Owned(t) && Enabled(t, e)
    ensures Owned(Step(t, e))
  {
    hide Partition, Request, Cleanup, Sweep, DropClient;
    match e {
      case Accepted(fd) => AcceptPartition(t, fd);
      case Disconnected(fd) => DropPartition(t, fd); KeepsMaps(t, Route("", false, 0, 0), fd, 0);
      case Requested(client, route, websocket, alive, made) => RequestOwned(t, client, route, websocket, alive, made);
      case HeadersRead(_, _) => SamePartition(t, Step(t, e));
      case Finished(client, keepAlive, now) => CleanupOwned(t, client, keepAlive, now);
      case Swept(now) => SweepPartition(t, now); SweepMaps(t, now);
    }
  }

  lemma SweepMaps(t: Table, now: int)
    ensures Sweep(t, now).proxied == t.proxied && Sweep(t, now).owner == t.owner
  {
  }

  lemma AcceptPartition(t: Table, fd: int)
    requires Partition(t, {}) && fd > 0 && fd !in t.open
    ensures Partition(t.(open := t.open + {fd}, clients := t.clients + {fd}), {})
  {
    hide Pooled, Distinct, NonNegative;
  }

  ghost predicate Possible(run: seq<Event>)
    decreases |run|, 0
  {
    run == [] || (Possible(run[..|run| - 1]) && Enabled(After(run[..|run| - 1]), run[|run| - 1]))
  }

  ghost function After(run: seq<Event>): Table
    requires Possible(run)
    decreases |run|, 1
  {
    if run == [] then EMPTY else Step(After(run[..|run| - 1]), run[|run| - 1])
  }

  /** Over all runs: nothing that is not open is ever closed, every open descriptor has exactly
      one owner, and the upstream of every exchange leads back to its client. */
  lemma {:induction false} AlwaysOwned(run: seq<Event>)
    requires Possible(run)
    ensures Owned(After(run))
  {
    hide Step, Enabled, Owned;
    if run == [] {
      EmptyOwned();
    } else {
      var before := run[..|run| - 1];
      AlwaysOwned(before);
      StepOwned(After(before), run[|run| - 1]);
    }
  }

  lemma EmptyOwned()
    ensures Owned(EMPTY)
  {
  }

  // ---------------------------------------------------------------------
  // Limits and leaks

  /** A pool grows only when an exchange ends, by one, and not past the size its route allows. */
  lemma PoolsBounded(t: Table, e: Event, key: string)
    requires Enabled(t, e)
    ensures var before, after := |Conns(t.pools, key)|, |Conns(Step(t, e).pools, key)|;
            after > before ==>
              && e.Finished? && e.client in t.proxied && t.proxied[e.client].route.key == key
              && after == before + 1 <= t.proxied[e.client].route.poolSize
  {
  }

  /** An upstream in use that no exchange knows of. */
  predicate Orphan(t: Table, fd: int) {
    fd in t.owner && !(t.owner[fd] in t.proxied && t.proxied[t.owner[fd]].upstream == fd)
  }

  ghost predicate NoOrphans(t: Table) { forall fd :: !Orphan(t, fd) }

  /** A request of a client whose exchange is still open gets an upstream of its own. */
  predicate Supersedes(t: Table, e: Event) {
    e.Requested? && e.client in t.proxied && Obtain(t, e.route, e.alive, e.made).1.Some?
  }

  lemma RequestOrphans(t: Table, client: int, route: Route, websocket: bool, alive: bool, made: Option<int>)
    requires Owned(t) && NoOrphans(t) && Enabled(t, Requested(client, route, websocket, alive, made))
    ensures NoOrphans(Request(t, client, route, websocket, alive, made)) <==>
            !Supersedes(t, Requested(client, route, websocket, alive, made))
  {
    hide Partition, Obtain;
    ObtainPartition(t, route, alive, made);
    var (u, upstream) := Obtain(t, route, alive, made);
    var v := Request(t, client, route, websocket, alive, made);
    if upstream.Some? {
      AssignPartition(u, upstream.value, client);
      assert forall fd :: fd != upstream.value && !(client in t.proxied && fd == t.proxied[client].upstream) ==> Orphan(v, fd) == Orphan(t, fd);
      if client in t.proxied {
        assert Orphan(v, t.proxied[client].upstream);
      }
    } else {
      assert forall fd :: Orphan(v, fd) == Orphan(t, fd);
    }
  }

  lemma CleanupOrphans(t: Table, client: int, keepAlive: bool, now: int)
    requires Owned(t) && NoOrphans(t)
    ensures NoOrphans(Cleanup(t, client, keepAlive, now))
  {
    hide Partition, Put, CloseFd, DropClient;
    if client in t.proxied {
      var x := t.proxied[client];
      var u := t.(owner := t.owner - {x.upstream});
      KeepsMaps(u, x.route, x.upstream, now);
      var v := if x.poolable && !x.websocket then Put(u, x.route, x.upstream, now) else CloseFd(u, x.upstream);
      KeepsMaps(v, x.route, client, now);
      var w := Cleanup(t, client, keepAlive, now);
      assert w.owner == t.owner - {x.upstream} && w.proxied == t.proxied - {client};
      assert forall fd :: fd in w.owner ==> !Orphan(t, fd) && !Orphan(w, fd);
    }
  }

  /** A step leaves every upstream in use with an exchange, so that cleanup can reach it, exactly
      when it is not a request of a client whose exchange is still open. */
  lemma StepOrphans(t: Table, e: Event)
    requires Owned(t) && NoOrphans(t) && Enabled(t, e)
    ensures NoOrphans(Step(t, e)) <==> !Supersedes(t, e)
  {
    hide Partition, Request, Cleanup, Sweep, DropClient, Obtain, NoOrphans;
    match e {
      case Accepted(fd) => SameOrphans(t, Step(t, e));
      case Disconnected(fd) => KeepsMaps(t, Route("", false, 0, 0), fd, 0); SameOrphans(t, Step(t, e));
      case Requested(client, route, websocket, alive, made) => RequestOrphans(t, client, route, websocket, alive, made);
      case HeadersRead(_, _) => SameOrphans(t, Step(t, e));
      case Finished(client, keepAlive, now) => CleanupOrphans(t, client, keepAlive, now);
      case Swept(now) => SweepMaps(t, now); SameOrphans(t, Step(t, e));
    }
  }

  /** Some request of the run superseded an open exchange. */
  ghost predicate Superseded(run: seq<Event>)
    requires Possible(run)
  {
    run != [] && (Superseded(run[..|run| - 1]) || Supersedes(After(run[..|run| - 1]), run[|run| - 1]))
  }

  /** Over every run without such a request, every upstream in use stays with an exchange. */
  lemma {:induction false} NeverOrphans(run: seq<Event>)
    requires Possible(run) && !Superseded(run)
    ensures NoOrphans(After(run))
  {
    hide Step, Enabled, Supersedes, Owned;
    if run != [] {
      var before := run[..|run| - 1];
      NeverOrphans(before);
      AlwaysOwned(before);
      StepOrphans(After(before), run[|run| - 1]);
    }
  }

  lemma SameOrphans(t: Table, u: Table)
    requires t.owner == u.owner && forall c :: c in t.proxied <==> c in u.proxied
    requires forall c :: c in t.proxied ==> t.proxied[c].upstream == u.proxied[c].upstream
    ensures NoOrphans(t) <==> NoOrphans(u)
  {
    forall fd
      ensures Orphan(t, fd) == Orphan(u, fd)
    {
      if fd in t.owner {
        var c := t.owner[fd];
        assert c in t.proxied <==> c in u.proxied;
      }
    }
  }

  /** It happens: a client disconnects while its exchange is open, and its number is given to
      a client whose request supersedes the exchange. */
  lemma LeaksUpstream() returns (run: seq<Event>)
    ensures Possible(run) && Owned(After(run)) && Orphan(After(run), 9)
  {
    hide Possible, After, Owned;
    var route := Route("h:80", false, 0, 0);
    run := [];
    Start();
    Extend(run, Accepted(5));
    run := run + [Accepted(5)];
    Extend(run, Requested(5, route, false, true, Some(9)));
    run := run + [Requested(5, route, false, true, Some(9))];
    Extend(run, Disconnected(5));
    run := run + [Disconnected(5)];
    Extend(run, Accepted(5));
    run := run + [Accepted(5)];
    Extend(run, Requested(5, route, false, true, Some(10)));
    run := run + [Requested(5, route, false, true, Some(10))];
    AlwaysOwned(run);
  }

  lemma Start()
    ensures Possible([]) && After([]) == EMPTY
  {
  }

  lemma Extend(run: seq<Event>, e: Event)
    requires Possible(run) && Enabled(After(run), e)
    ensures Possible(run + [e]) && After(run + [e]) == Step(After(run), e)
  {
    hide Step, Enabled;
    assert (run + [e])[..|run|] == run;
  }
}
