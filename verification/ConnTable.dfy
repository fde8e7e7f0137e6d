/** The table of connections, with the number of connections of every address. */
module ConnTable {

  const NUM_CLIENTS: nat := 10000

  /** `fd` is 0 in a free slot; `address` is empty until the connection is counted. */
  datatype Slot = Slot(fd: int, address: string)

  const FREE := Slot(0, "")

  predicate Counted(s: Slot, address: string) { s.fd != 0 && s.address == address }

  /** Occupied slots of an address. */
  function Occupied(slots: seq<Slot>, address: string): (n: nat)
    ensures n <= |slots|
  {
    if slots == [] then 0
    else Occupied(slots[..|slots| - 1], address) + if Counted(slots[|slots| - 1], address) then 1 else 0
  }

  lemma {:induction false} OccupiedUpdate(slots: seq<Slot>, i: nat, s: Slot, address: string)
    requires i < |slots|
    ensures Occupied(slots[i := s], address) ==
            Occupied(slots, address) - (if Counted(slots[i], address) then 1 else 0) + (if Counted(s, address) then 1 else 0)
  {
    var last := |slots| - 1;
    if i == last {
      assert slots[i := s][..last] == slots[..last];
    } else {
      assert slots[i := s][..last] == slots[..last][i := s];
      OccupiedUpdate(slots[..last], i, s, address);
    }
  }

  lemma {:induction false} OccupiedSome(slots: seq<Slot>, i: nat)
    requires i < |slots| && slots[i].fd != 0
    ensures Occupied(slots, slots[i].address) > 0
  {
    var last := |slots| - 1;
    if i < last {
      OccupiedSome(slots[..last], i);
    }
  }

  lemma {:induction false} NoneOccupied(slots: seq<Slot>, address: string)
    requires forall i :: 0 <= i < |slots| ==> slots[i].fd == 0
    ensures Occupied(slots, address) == 0
  {
    if slots != [] {
      NoneOccupied(slots[..|slots| - 1], address);
    }
  }

  /** Descriptors and occupied slots lead to each other. */
  predicate Inverse(slots: seq<Slot>, index: map<int, nat>) {
    && (forall fd :: fd in index ==> fd > 0 && index[fd] < |slots| && slots[index[fd]].fd == fd)
    && (forall i :: 0 <= i < |slots| && slots[i].fd != 0 ==> slots[i].fd in index && index[slots[i].fd] == i)
  }

  function Get(counts: map<string, nat>, address: string): nat { if address in counts then counts[address] else 0 }

  /** The counter of an address is the number of its occupied slots, and within the limit. */
  ghost predicate Exact(slots: seq<Slot>, counts: map<string, nat>, limit: nat) {
    && (forall a :: a in counts ==> counts[a] > 0 && a != "")
    && (forall a :: a != "" ==> Get(counts, a) == Occupied(slots, a) && Get(counts, a) <= limit)
  }

  predicate Full(slots: seq<Slot>) { forall i :: 0 <= i < |slots| ==> slots[i].fd != 0 }

  function Raised(counts: map<string, nat>, address: string): map<string, nat> {
    if address == "" then counts else counts[address := Get(counts, address) + 1]
  }

  function Lowered(counts: map<string, nat>, address: string): map<string, nat> {
    var n := Get(counts, address);
    if address == "" || n == 0 then counts else if n == 1 then counts - {address} else counts[address := n - 1]
  }

  lemma RaisedLowered(counts: map<string, nat>, address: string)
    requires forall a :: a in counts ==> counts[a] > 0
    ensures Lowered(Raised(counts, address), address) == counts
  {
  }

  /** Taking a free slot. */
  lemma Occupy(slots: seq<Slot>, index: map<int, nat>, counts: map<string, nat>, limit: nat, i: nat, fd: int)
    requires Inverse(slots, index) && Exact(slots, counts, limit)
    requires i < |slots| && slots[i].fd == 0 && fd > 0 && fd !in index
    ensures Inverse(slots[i := Slot(fd, "")], index[fd := i]) && Exact(slots[i := Slot(fd, "")], counts, limit)
  {
    forall a | a != ""
      ensures Occupied(slots[i := Slot(fd, "")], a) == Occupied(slots, a)
    {
      OccupiedUpdate(slots, i, Slot(fd, ""), a);
    }
  }

  /** Counting a connection that has just been added. */
  lemma CountIn(slots: seq<Slot>, index: map<int, nat>, counts: map<string, nat>, limit: nat, i: nat, address: string)
    requires Inverse(slots, index) && Exact(slots, counts, limit)
    requires i < |slots| && slots[i].fd != 0 && slots[i].address == "" && (address != "" ==> Get(counts, address) < limit)
    ensures Inverse(slots[i := slots[i].(address := address)], index)
    ensures Exact(slots[i := slots[i].(address := address)], Raised(counts, address), limit)
  {
    forall a | a != ""
      ensures Get(Raised(counts, address), a) == Occupied(slots[i := slots[i].(address := address)], a)
      ensures Get(Raised(counts, address), a) <= limit
    {
      assert Get(counts, a) == Occupied(slots, a);
      OccupiedUpdate(slots, i, slots[i].(address := address), a);
    }
  }

  /** Giving a slot back. */
  lemma Vacate(slots: seq<Slot>, index: map<int, nat>, counts: map<string, nat>, limit: nat, fd: int)
    requires Inverse(slots, index) && Exact(slots, counts, limit) && fd in index
    ensures var i := index[fd];
            Inverse(slots[i := slots[i].(fd := 0)], index - {fd}) && Exact(slots[i := slots[i].(fd := 0)], Lowered(counts, slots[i].address), limit)
  {
    var i := index[fd];
    OccupiedSome(slots, i);
    forall a | a != ""
      ensures Get(Lowered(counts, slots[i].address), a) == Occupied(slots[i := slots[i].(fd := 0)], a)
      ensures Get(Lowered(counts, slots[i].address), a) <= limit
    {
      assert Get(counts, a) == Occupied(slots, a);
      OccupiedUpdate(slots, i, slots[i].(fd := 0), a);
    }
  }

  class Connections {
    const clients: array<Slot>
    const limit: nat
    var fdToIndex: map<int, nat>
    var counts: map<string, nat>

    ghost predicate Valid()
      reads this, clients
    {
      limit > 0 && Inverse(clients[..], fdToIndex) && Exact(clients[..], counts, limit)
    }

    constructor (limit: nat)
      requires limit > 0
      ensures Valid() && fresh(clients) && clients.Length == NUM_CLIENTS && this.limit == limit && fdToIndex == map[] && counts == map[]
    {
      clients := new Slot[NUM_CLIENTS](_ => FREE);
      this.limit := limit;
      fdToIndex, counts := map[], map[];
      new;
      forall a ensures Occupied(clients[..], a) == 0 { NoneOccupied(clients[..], a); }
    }

    /** Enters a descriptor in the first free slot. */
    method ConnAdd(fd: int) returns (ok: bool)
      requires Valid() && fd !in fdToIndex
      modifies this`fdToIndex, clients
      ensures Valid()
      ensures ok <==> fd >= 1 && !Full(old(clients[..]))
      ensures !ok ==> fdToIndex == old(fdToIndex) && clients[..] == old(clients[..])
      ensures ok ==> fd in fdToIndex && fdToIndex == old(fdToIndex)[fd := fdToIndex[fd]]
                     && clients[..] == old(clients[..])[fdToIndex[fd] := Slot(fd, "")]
                     && old(clients[..])[fdToIndex[fd]].fd == 0
                     && forall j :: 0 <= j < fdToIndex[fd] ==> old(clients[..])[j].fd != 0
    {
      if fd < 1 {
        return false;
      }
      var i := 0;
      while i < clients.Length && clients[i].fd != 0
        invariant i <= clients.Length && forall j :: 0 <= j < i ==> clients[..][j].fd != 0
      {
        i := i + 1;
      }
      if i == clients.Length {
        return false;
      }
      assert clients[..][i].fd == 0;
      Occupy(clients[..], fdToIndex, counts, limit, i, fd);
      ghost var slots := clients[..];
      clients[i] := Slot(fd, "");
      assert clients[..] == slots[i := Slot(fd, "")];
      fdToIndex := fdToIndex[fd := i];
      return true;
    }

    /** Removes a descriptor and lowers the counter of its address. */
    method ConnDel(fd: int) returns (found: bool)
      requires Valid()
      modifies this`fdToIndex, this`counts, clients
      ensures Valid()
      ensures found <==> fd in old(fdToIndex)
      ensures fdToIndex == old(fdToIndex) - {fd}
      ensures !found ==> counts == old(counts) && clients[..] == old(clients[..])
      ensures found ==> var i := old(fdToIndex)[fd];
                        && i < clients.Length
                        && counts == Lowered(old(counts), old(clients[..])[i].address)
                        && clients[..] == old(clients[..])[i := old(clients[..])[i].(fd := 0)]
    {
      if fd < 1 || fd !in fdToIndex {
        return false;
      }
      Vacate(clients[..], fdToIndex, counts, limit, fd);
      var i := fdToIndex[fd];
      var address := clients[i].address;
      ghost var slots := clients[..];
      if address != "" {
        var cur := Get(counts, address);
        if cur > 1 {
          counts := counts[address := cur - 1];
        } else if cur == 1 {
          counts := counts - {address};
        }
      }
      clients[i] := clients[i].(fd := 0);
      assert clients[..] == slots[i := slots[i].(fd := 0)];
      fdToIndex := fdToIndex - {fd};
      return true;
    }

    /** An accepted connection stays if there is a slot for it, its address is below the limit,
        and nothing fails afterwards; otherwise nothing that counts has changed. */
    method Accept(fd: int, address: string, fails: bool) returns (stays: bool)
      requires Valid() && fd !in fdToIndex
      modifies this`fdToIndex, this`counts, clients
      ensures Valid()
      ensures stays <==> fd >= 1 && !Full(old(clients[..])) && (address == "" || Get(old(counts), address) < limit) && !fails
      ensures stays ==> fd in fdToIndex && fdToIndex == old(fdToIndex)[fd := fdToIndex[fd]] && counts == Raised(old(counts), address)
                        && fdToIndex[fd] < clients.Length && clients[fdToIndex[fd]] == Slot(fd, address)
      ensures !stays ==> fdToIndex == old(fdToIndex) && counts == old(counts)
    {
      hide Inverse, Exact, Full, Lowered, Raised;
      var ok := ConnAdd(fd);
      if !ok {
        return false;
      }
      NewEntry(old(fdToIndex), fd, fdToIndex[fd]);
      InRange(clients[..], fdToIndex, fd);
      var idx := fdToIndex[fd];
      var cur := Get(counts, address);
      if address != "" {
        if cur >= limit {
          LoweredNothing(counts);
          var _ := ConnDel(fd);
          return false;
        }
      }
      CountIn(clients[..], fdToIndex, counts, limit, idx, address);
      PositiveCounts(clients[..], counts, limit);
      RaisedLowered(counts, address);
      ghost var slots := clients[..];
      counts := Count(address, cur);
      clients[idx] := clients[idx].(address := address);
      assert clients[..] == slots[idx := slots[idx].(address := address)];
      if fails {
        var _ := ConnDel(fd);
        return false;
      }
      return true;
    }

    method Count(address: string, cur: nat) returns (r: map<string, nat>)
      requires cur == Get(counts, address)
      ensures r == Raised(counts, address)
    {
      r := if address != "" then counts[address := cur + 1] else counts;
    }
  }

  lemma NewEntry(index: map<int, nat>, fd: int, i: nat)
    requires fd !in index
    ensures index[fd := i] - {fd} == index
  {
  }

  lemma InRange(slots: seq<Slot>, index: map<int, nat>, fd: int)
    requires Inverse(slots, index) && fd in index
    ensures index[fd] < |slots| && slots[index[fd]].fd == fd != 0
  {
  }

  lemma PositiveCounts(slots: seq<Slot>, counts: map<string, nat>, limit: nat)
    requires Exact(slots, counts, limit)
    ensures forall a :: a in counts ==> counts[a] > 0
  {
  }

  lemma LoweredNothing(counts: map<string, nat>)
    ensures Lowered(counts, "") == counts
  {
  }

  datatype Event = Accepted(fd: int, address: string, fails: bool) | Closed(fd: int)

  /** Any sequence of accepts and closes; the kernel never hands out a descriptor that is in use. */
  method Run(limit: nat, run: seq<Event>) returns (c: Connections)
    requires limit > 0
    ensures c.Valid() && c.limit == limit && c.clients.Length == NUM_CLIENTS
  {
    c := new Connections(limit);
    var i := 0;
    while i < |run|
      invariant i <= |run| && c.Valid() && c.limit == limit && c.clients.Length == NUM_CLIENTS
      invariant fresh(c) && fresh(c.clients)
    {
      hide Inverse, Exact;
      match run[i] {
        case Accepted(fd, address, fails) =>
          if fd !in c.fdToIndex {
            var _ := c.Accept(fd, address, fails);
          }
        case Closed(fd) =>
          var _ := c.ConnDel(fd);
      }
      i := i + 1;
    }
  }
}
