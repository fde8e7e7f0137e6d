/** The tables of the proxy as they are changed in place. */
module Pool {
  import opened Text
  import opened PoolSpec

  class ProxyTables {
    var proxied: map<int, Exchange>
    var owner: map<int, int>
    var pools: map<string, seq<Idle>>
    var clients: set<int>
    ghost var open: set<int>
    ghost var badClose: bool

    ghost function Now(): Table
      reads this
    {
      Table(proxied, owner, pools, clients, open, badClose)
    }

    constructor ()
      ensures Now() == EMPTY
    {
      proxied, owner, pools, clients, open, badClose := map[], map[], map[], {}, {}, false;
    }

    method Close(fd: int)
      modifies this`open, this`badClose
      ensures Now() == CloseFd(old(Now()), fd)
    {
      badClose := badClose || fd !in open;
      open := open - {fd};
    }

    /** An idle connection, or -1. */
    method PoolTake(key: string) returns (fd: int)
      modifies this`pools
      ensures fd == Newest(old(Now()), key) && Now() == Take(old(Now()), key)
    {
      if key !in pools || |pools[key]| == 0 {
        return -1;
      }
      var conns := pools[key];
      fd := conns[|conns| - 1].fd;
      pools := pools[key := conns[..|conns| - 1]];
    }

    method PoolPut(route: Route, fd: int, now: int)
      modifies this`pools, this`open, this`badClose
      ensures Now() == Put(old(Now()), route, fd, now)
    {
      if route.key !in pools {
        pools := pools[route.key := []];
      }
      var conns := pools[route.key];
      if |conns| >= route.poolSize {
        assert pools == old(pools)[route.key := conns];
        Close(fd);
        return;
      }
      pools := pools[route.key := conns + [Idle(fd, now, route.timeout)]];
    }

    /** Moves the connections that stay to the front of one pool and closes the others. */
    method SweepPool(conns: seq<Idle>, now: int) returns (kept: seq<Idle>)
      requires NoRepeat(conns) && forall c :: c in conns ==> c.fd in open
      modifies this`open, this`badClose
      ensures kept == Kept(conns, now)
      ensures open == old(open) - ExpiredOf(conns, now) && badClose == old(badClose)
    {
      hide Kept, ExpiredOf;
      kept := [];
      NoneKept(now);
      assert conns[..0] == [];
      var r := 0;
      while r < |conns|
        invariant r <= |conns| && kept == Kept(conns[..r], now) && badClose == old(badClose)
        invariant open == old(open) - ExpiredOf(conns[..r], now)
      {
        NextKept(conns, r, now);
        if Expired(conns[r], now) {
          Close(conns[r].fd);
        } else {
          kept := kept + [conns[r]];
        }
        r := r + 1;
      }
      assert conns[..|conns|] == conns;
    }

    /** Closes the idle connections that have waited too long. */
    method SweepAll(now: int)
      requires Owned(Now())
      modifies this`pools, this`open, this`badClose
      ensures Now() == Sweep(old(Now()), now)
    {
      ghost var before := pools;
      var todo := pools.Keys;
      while todo != {}
        invariant todo <= pools.Keys == before.Keys
        invariant forall key :: key in todo ==> pools[key] == before[key]
        invariant forall key :: key in before.Keys - todo ==> pools[key] == Kept(before[key], now)
        invariant open == old(open) - ExpiredIn(before, before.Keys - todo, now) && badClose == old(badClose)
      {
        var key :| key in todo;
        OneOwner(old(Now()), before.Keys - todo, key, now);
        var kept := SweepPool(pools[key], now);
        pools := pools[key := kept];
        MoreExpired(before, before.Keys - todo, key, now);
        assert before.Keys - (todo - {key}) == before.Keys - todo + {key};
        todo := todo - {key};
      }
      assert before.Keys - todo == before.Keys;
      SweepIs(old(Now()), now);
      assert pools == Sweep(old(Now()), now).pools;
    }

    /** A request is passed on to its upstream. */
    method OnRequest(client: int, route: Route, websocket: bool, alive: bool, made: Option<int>)
      modifies this
      ensures Now() == Request(old(Now()), client, route, websocket, alive, made)
    {
      hide Newest, Take;
      var upstream := -1;
      if route.keepalive {
        upstream := PoolTake(route.key);
        if upstream >= 0 && !alive {
          Close(upstream);
          upstream := -1;
        }
      }
      if upstream < 0 {
        if made.None? {
          return;
        }
        upstream := made.value;
        open := open + {upstream};
      }
      proxied := proxied[client := Exchange(upstream, route, false, websocket)];
      owner := owner[upstream := client];
    }

    method Drop(fd: int)
      modifies this`clients, this`open, this`badClose
      ensures Now() == DropClient(old(Now()), fd)
    {
      if fd in clients {
        clients := clients - {fd};
        Close(fd);
      }
    }

    /** An exchange is over. */
    method Finish(client: int, keepAlive: bool, now: int)
      modifies this
      ensures Now() == Cleanup(old(Now()), client, keepAlive, now)
    {
      hide Put, CloseFd, DropClient;
      if client !in proxied {
        return;
      }
      var x := proxied[client];
      owner := owner - {x.upstream};
      if x.poolable && !x.websocket {
        PoolPut(x.route, x.upstream, now);
      } else {
        Close(x.upstream);
      }
      if client in clients && !(x.poolable && keepAlive) {
        Drop(client);
      }
      proxied := proxied - {client};
    }

    method Dispatch(e: Event)
      requires Owned(Now()) && Enabled(Now(), e)
      modifies this
      ensures Now() == Step(old(Now()), e) && Owned(Now())
    {
      hide Owned, Sweep, Request, Cleanup, DropClient;
      StepOwned(Now(), e);
      match e {
        case Accepted(fd) =>
          open, clients := open + {fd}, clients + {fd};
        case Disconnected(fd) =>
          Drop(fd);
        case Requested(client, route, websocket, alive, made) =>
          OnRequest(client, route, websocket, alive, made);
        case HeadersRead(client, reusable) =>
          if client in proxied {
            proxied := proxied[client := proxied[client].(poolable := proxied[client].route.keepalive && reusable)];
          }
        case Finished(client, keepAlive, now) =>
          Finish(client, keepAlive, now);
        case Swept(now) =>
          SweepAll(now);
      }
    }
  }

  ghost function ExpiredIn(pools: map<string, seq<Idle>>, keys: set<string>, now: int): set<int> {
    set key, c | key in keys && key in pools && c in pools[key] && Expired(c, now) :: c.fd
  }

  ghost function ExpiredOf(conns: seq<Idle>, now: int): set<int> { set c | c in conns && Expired(c, now) :: c.fd }

  lemma NoneKept(now: int)
    ensures Kept([], now) == [] && ExpiredOf([], now) == {}
  {
  }

  lemma NextKept(conns: seq<Idle>, r: nat, now: int)
    requires r < |conns| && NoRepeat(conns)
    ensures Kept(conns[..r + 1], now) == Kept(conns[..r], now) + if Expired(conns[r], now) then [] else [conns[r]]
    ensures ExpiredOf(conns[..r + 1], now) == ExpiredOf(conns[..r], now) + if Expired(conns[r], now) then {conns[r].fd} else {}
    ensures conns[r] in conns && conns[r].fd !in ExpiredOf(conns[..r], now)
  {
    assert conns[..r + 1] == conns[..r] + [conns[r]] && conns[..r + 1][..r] == conns[..r];
  }

  lemma MoreExpired(pools: map<string, seq<Idle>>, keys: set<string>, key: string, now: int)
    requires key in pools
    ensures ExpiredIn(pools, keys + {key}, now) == ExpiredIn(pools, keys, now) + ExpiredOf(pools[key], now)
  {
  }

  lemma SweepIs(t: Table, now: int)
    requires Owned(t)
    ensures ExpiredIn(t.pools, t.pools.Keys, now) == ExpiredFds(t.pools, now) <= t.open && !t.badClose
  {
    forall fd | fd in ExpiredFds(t.pools, now)
      ensures fd in t.open
    {
      SweepPooled(t, now, fd);
    }
  }

  /** The connections of a pool are open, also after other pools have been swept. */
  lemma OneOwner(t: Table, done: set<string>, key: string, now: int)
    requires Owned(t) && key in t.pools && key !in done
    ensures NoRepeat(t.pools[key])
    ensures forall c :: c in t.pools[key] ==> c.fd in t.open - ExpiredIn(t.pools, done, now)
  {
    var conns := t.pools[key];
    assert forall i :: 0 <= i < |conns| ==> At(t.pools, key, i, conns[i].fd);
    forall c | c in conns
      ensures c.fd in t.open - ExpiredIn(t.pools, done, now)
    {
      var i :| 0 <= i < |conns| && conns[i] == c;
      assert At(t.pools, key, i, c.fd) && Pooled(t.pools, c.fd);
      if c.fd in ExpiredIn(t.pools, done, now) {
        var other, d :| other in done && other in t.pools && d in t.pools[other] && Expired(d, now) && d.fd == c.fd;
        var j :| 0 <= j < |t.pools[other]| && t.pools[other][j] == d;
        assert At(t.pools, other, j, c.fd);
        assert false;
      }
    }
  }

  /** Whole runs on the tables. */
  method Run(run: seq<Event>) returns (p: ProxyTables)
    requires Possible(run)
    ensures p.Now() == After(run) && Owned(p.Now())
  {
    hide Step, Enabled, Owned;
    p := new ProxyTables();
    EmptyOwned();
    var i := 0;
    PossibleBefore(run, 0);
    while i < |run|
      invariant i <= |run| && Possible(run[..i]) && p.Now() == After(run[..i]) && Owned(p.Now())
    {
      PossibleBefore(run, i + 1);
      assert run[..i + 1][..i] == run[..i];
      p.Dispatch(run[i]);
      i := i + 1;
    }
    assert run[..|run|] == run;
  }

  lemma {:induction false} PossibleBefore(run: seq<Event>, i: nat)
    requires Possible(run) && i <= |run|
    ensures Possible(run[..i])
  {
    if i < |run| {
      var before := run[..|run| - 1];
      PossibleBefore(before, i);
      assert before[..i] == run[..i];
    } else {
      assert run[..i] == run;
    }
  }
}
