/** Choosing one of the targets of an upstream pool. */
module LoadBalance {
  import opened Text

  const TWO32: nat := 0x1_0000_0000
  const INT_MAX: nat := 0x7fff_ffff
  const MAX_TARGETS: nat := 16

  datatype Mode = RoundRobin | Random | IpHash | ConnHash | LeastConn

  datatype Target = Target(url: string, unhealthyUntil: int, active: nat)

  predicate Healthy(t: Target, now: int) { t.unhealthyUntil == 0 || now >= t.unhealthyUntil }

  predicate AllHealthy(targets: seq<Target>, now: int) { forall i :: 0 <= i < |targets| ==> Healthy(targets[i], now) }

  // ---------------------------------------------------------------------
  // Hashes

  /** Over the bytes of the address, in 64 bits. */
  function AddressHash(ip: string): nat {
    if ip == "" then 5381 else (AddressHash(ip[..|ip| - 1]) * 33 + ip[|ip| - 1] as nat) % 0x1_0000_0000_0000_0000
  }

  /** Exclusive or, binary digit by digit. */
  function Xor(a: nat, b: nat): nat {
    if a == 0 && b == 0 then 0 else (a % 2 + b % 2) % 2 + 2 * Xor(a / 2, b / 2)
  }

  /** Of an integer of 32 bits. */
  function DescriptorHash(fd: nat): nat {
    var h := fd % TWO32;
    var g := Xor(h, h / 0x1_0000) * 0x45d9f3b % TWO32;
    Xor(g, g / 0x1_0000)
  }

  // ---------------------------------------------------------------------
  // Going round

  function Remainder(a: nat, n: nat): (r: nat)
    requires n > 0
    ensures r < n
  {
    a % n
  }

  /** The target tried in the given round, in 32-bit arithmetic. */
  function TriedIndex(c: nat, tries: nat, n: nat): (i: nat)
    requires n > 0
    ensures i < n
  {
    Remainder((c + tries) % TWO32, n)
  }

  ghost predicate Tried(c: nat, n: nat, i: nat)
    requires n > 0
  {
    exists tries :: 0 <= tries < n && TriedIndex(c, tries, n) == i
  }

  lemma RemainderIs(a: nat, q: nat, r: nat, n: nat)
    requires n > 0 && a == q * n + r && r < n
    ensures Remainder(a, n) == r
  {
    var q', r' := a / n, a % n;
    assert a == q' * n + r';
    assert (q - q') * n == r' - r;
    MulBig(q - q', n);
  }

  lemma MulBig(k: int, n: nat)
    ensures k >= 1 ==> k * n >= n
    ensures k <= -1 ==> k * n + n <= 0
  {
  }

  lemma RemainderShift(a: nat, n: nat)
    requires n > 0
    ensures Remainder(a + n, n) == Remainder(a, n)
  {
    var q, r := a / n, a % n;
    assert a == q * n + r;
    assert a + n == (q + 1) * n + r;
    RemainderIs(a + n, q + 1, r, n);
  }

  /** The remainder of a number a little above or below another one. */
  lemma RemainderNear(a: nat, d: int, n: nat)
    requires n > 0 && 0 <= Remainder(a, n) + d < 2 * n && a + d >= 0
    ensures Remainder(a + d, n) == if Remainder(a, n) + d < n then Remainder(a, n) + d else Remainder(a, n) + d - n
  {
    var q, r := a / n, a % n;
    assert a == q * n + r;
    if r + d < n {
      RemainderIs(a + d, q, r + d, n);
    } else {
      assert a + d - n == q * n + (r + d - n);
      RemainderIs(a + d - n, q, r + d - n, n);
      RemainderShift(a + d - n, n);
    }
  }

  /** Without wrap-around some round tries every target. */
  lemma TriesReach(c: nat, n: nat, i: nat) returns (tries: nat)
    requires 0 < n && i < n && c + n <= TWO32
    ensures tries < n && TriedIndex(c, tries, n) == i
  {
    hide Remainder;
    var r := Remainder(c, n);
    tries := if r <= i then i - r else i + n - r;
    RemainderNear(c, tries, n);
  }

  /** If the number of targets divides the range of the counter, wrap-around does no harm. */
  lemma TriesReachAround(c: nat, n: nat, i: nat) returns (tries: nat)
    requires 0 < n <= TWO32 && i < n && c < TWO32 < c + n && Remainder(TWO32, n) == 0
    ensures tries < n && TriedIndex(c, tries, n) == i
  {
    var k := TWO32 - c;
    if i < n - k {
      tries := k + i;
      RemainderIs(i, 0, i, n);
    } else {
      tries := i + k - n;
      hide Remainder;
      RemainderShift(c + tries, n);
      RemainderNear(TWO32, i, n);
    }
  }

  /** Otherwise the rounds around the wrap-around leave this target out. */
  function LeftOut(c: nat, n: nat): int
    requires n > 0
  {
    var r, k := Remainder(TWO32, n), TWO32 - c;
    if r >= k then n - 1 else r + n - k - 1
  }

  lemma TriesMiss(c: nat, n: nat, tries: nat)
    requires 0 < n <= TWO32 && c < TWO32 < c + n && Remainder(TWO32, n) != 0 && tries < n
    ensures 0 <= LeftOut(c, n) < n && TriedIndex(c, tries, n) != LeftOut(c, n)
  {
    var r, k := Remainder(TWO32, n), TWO32 - c;
    if tries >= k {
      assert (c + tries) % TWO32 == tries - k;
      RemainderIs(tries - k, 0, tries - k, n);
    } else {
      hide Remainder;
      var d := tries - k;
      if r + d >= 0 {
        RemainderNear(TWO32, d, n);
      } else {
        RemainderShift(c + tries, n);
        RemainderNear(TWO32, d + n, n);
      }
    }
  }

  /** Every target is tried exactly when the counter does not wrap around on the way, or wraps
      around at a multiple of the number of targets. */
  lemma RoundRobinTriesAll(c: nat, n: nat)
    requires 0 < n <= TWO32 && c < TWO32
    ensures (forall i :: 0 <= i < n ==> Tried(c, n, i)) <==> (c + n <= TWO32 || TWO32 % n == 0)
  {
    hide TriedIndex, LeftOut;
    if c + n <= TWO32 || TWO32 % n == 0 {
      forall i | 0 <= i < n
        ensures Tried(c, n, i)
      {
        if c + n <= TWO32 {
          var tries := TriesReach(c, n, i);
        } else {
          var tries := TriesReachAround(c, n, i);
        }
      }
    } else {
      TriesMiss(c, n, 0);
      forall tries | 0 <= tries < n
        ensures TriedIndex(c, tries, n) != LeftOut(c, n)
      {
        TriesMiss(c, n, tries);
      }
      assert !Tried(c, n, LeftOut(c, n));
    }
  }

  /** Where a mode begins to look: the same address, or the same descriptor, begins at the same target. */
  function Start(mode: Mode, counter: nat, random: nat, ip: string, fd: nat, n: nat): nat
    requires n > 0
  {
    match mode
    case Random => Remainder(random, n)
    case IpHash => Remainder(AddressHash(ip), n)
    case ConnHash => Remainder(DescriptorHash(fd), n)
    case _ => counter
  }

  /** The first healthy target that is tried from the given round on. */
  function FirstHealthy(targets: seq<Target>, c: nat, tries: nat, now: int): (chosen: Option<nat>)
    requires tries <= |targets|
    ensures chosen.Some? ==> chosen.value < |targets| && Healthy(targets[chosen.value], now)
    decreases |targets| - tries
  {
    if tries == |targets| then None
    else
      var i := TriedIndex(c, tries, |targets|);
      if Healthy(targets[i], now) then Some(i) else FirstHealthy(targets, c, tries + 1, now)
  }

  // ---------------------------------------------------------------------
  // The pool

  class UpstreamPool {
    const targets: array<Target>
    const mode: Mode
    var rrCounter: nat

    ghost predicate Valid()
      reads this, targets
    {
      targets.Length <= MAX_TARGETS && rrCounter < TWO32
    }

    constructor (urls: seq<string>, mode: Mode)
      ensures Valid() && rrCounter == 0 && this.mode == mode && fresh(targets)
      ensures targets.Length == if |urls| > MAX_TARGETS then MAX_TARGETS else |urls|
      ensures forall i :: 0 <= i < targets.Length ==> targets[i] == Target(urls[i], 0, 0)
    {
      var n := if |urls| > MAX_TARGETS then MAX_TARGETS else |urls|;
      targets := new Target[n](i requires 0 <= i < n => Target(urls[i], 0, 0));
      this.mode := mode;
      rrCounter := 0;
    }

    /** Target number c, c + 1, ... until one is healthy, going round once. */
    method ScanFrom(c: nat, now: int) returns (chosen: Option<nat>)
      requires 0 < targets.Length
      ensures chosen == FirstHealthy(targets[..], c, 0, now)
      ensures chosen.Some? ==> chosen.value < targets.Length && Healthy(targets[chosen.value], now)
      ensures chosen.None? ==> forall i :: 0 <= i < targets.Length && Tried(c, targets.Length, i) ==> !Healthy(targets[i], now)
      ensures chosen.Some? ==> exists tries :: 0 <= tries < targets.Length && chosen.value == TriedIndex(c, tries, targets.Length)
                                               && forall t :: 0 <= t < tries ==> !Healthy(targets[TriedIndex(c, t, targets.Length)], now)
      ensures Healthy(targets[TriedIndex(c, 0, targets.Length)], now) ==> chosen == Some(TriedIndex(c, 0, targets.Length))
    {
      hide TriedIndex;
      var n, tries := targets.Length, 0;
      while tries < n
        invariant 0 <= tries <= n && forall t :: 0 <= t < tries ==> !Healthy(targets[TriedIndex(c, t, n)], now)
        invariant FirstHealthy(targets[..], c, tries, now) == FirstHealthy(targets[..], c, 0, now)
      {
        var i := TriedIndex(c, tries, n);
        if Healthy(targets[i], now) {
          return Some(i);
        }
        tries := tries + 1;
      }
      return None;
    }

    method NextInTurn(now: int) returns (chosen: Option<nat>)
      requires Valid() && 0 < targets.Length
      modifies this`rrCounter
      ensures Valid() && rrCounter == (old(rrCounter) + 1) % TWO32
      ensures chosen == FirstHealthy(targets[..], old(rrCounter), 0, now)
      ensures chosen.Some? ==> chosen.value < targets.Length && Healthy(targets[chosen.value], now)
      ensures chosen.None? ==> forall i :: 0 <= i < targets.Length && Tried(old(rrCounter), targets.Length, i) ==> !Healthy(targets[i], now)
      ensures Healthy(targets[TriedIndex(old(rrCounter), 0, targets.Length)], now) ==>
                chosen == Some(TriedIndex(old(rrCounter), 0, targets.Length))
    {
      hide TriedIndex, Tried;
      var c := rrCounter;
      rrCounter := (rrCounter + 1) % TWO32;
      chosen := ScanFrom(c, now);
    }

    /** The first healthy target with the fewest connections. */
    method FewestConnections(now: int) returns (chosen: Option<nat>)
      requires Valid()
      ensures chosen.Some? ==>
                && chosen.value < targets.Length && Healthy(targets[chosen.value], now) && targets[chosen.value].active < INT_MAX
                && (forall i :: 0 <= i < targets.Length && Healthy(targets[i], now) ==> targets[chosen.value].active <= targets[i].active)
                && (forall i :: 0 <= i < chosen.value && Healthy(targets[i], now) ==> targets[chosen.value].active < targets[i].active)
      ensures chosen.None? ==> forall i :: 0 <= i < targets.Length && Healthy(targets[i], now) ==> targets[i].active >= INT_MAX
    {
      chosen := None;
      var least, i := INT_MAX, 0;
      while i < targets.Length
        invariant 0 <= i <= targets.Length
        invariant chosen.None? ==> least == INT_MAX
        invariant chosen.Some? ==>
                    && chosen.value < i && Healthy(targets[chosen.value], now) && targets[chosen.value].active == least < INT_MAX
                    && forall j :: 0 <= j < chosen.value && Healthy(targets[j], now) ==> least < targets[j].active
        invariant forall j :: 0 <= j < i && Healthy(targets[j], now) ==> least <= targets[j].active
      {
        if Healthy(targets[i], now) && targets[i].active < least {
          least := targets[i].active;
          chosen := Some(i);
        }
        i := i + 1;
      }
    }

    /** A healthy target, whenever there is one; `random` is what the generator returns. In turn
        that holds while the counter does not wrap around badly. */
    method Resolve(ip: string, fd: nat, random: nat, now: int) returns (chosen: Option<nat>)
      requires Valid()
      modifies this`rrCounter
      ensures Valid()
      ensures chosen.Some? ==> chosen.value < targets.Length && Healthy(targets[chosen.value], now)
      ensures rrCounter == if mode == RoundRobin && targets.Length > 0 then (old(rrCounter) + 1) % TWO32 else old(rrCounter)
      ensures targets.Length > 0 && mode != LeastConn ==>
                chosen == FirstHealthy(targets[..], Start(mode, old(rrCounter), random, ip, fd, targets.Length), 0, now)
      ensures mode == LeastConn && chosen.Some? ==>
                forall i :: 0 <= i < targets.Length && Healthy(targets[i], now) ==> targets[chosen.value].active <= targets[i].active
      ensures ((exists i :: 0 <= i < targets.Length && Healthy(targets[i], now) && targets[i].active < INT_MAX)
               && (mode == RoundRobin ==> old(rrCounter) + targets.Length <= TWO32 || TWO32 % targets.Length == 0)) ==> chosen.Some?
    {
      hide TriedIndex, Tried, AddressHash, DescriptorHash;
      var n := targets.Length;
      if n == 0 {
        return None;
      }
      if mode == RoundRobin {
        RoundRobinTriesAll(rrCounter, n);
        chosen := NextInTurn(now);
      } else if mode == LeastConn {
        chosen := FewestConnections(now);
      } else {
        var start := Start(mode, 0, random, ip, fd, n);
        RoundRobinTriesAll(start, n);
        chosen := ScanFrom(start, now);
      }
    }

    /** One more connection for the first target of this address. */
    method IncConn(url: string)
      modifies targets
      ensures forall i :: 0 <= i < targets.Length ==>
                targets[i] == if old(targets[i]).url == url && (forall j :: 0 <= j < i ==> old(targets[j]).url != url)
                              then old(targets[i]).(active := old(targets[i]).active + 1) else old(targets[i])
    {
      var i := 0;
      while i < targets.Length
        invariant 0 <= i <= targets.Length && forall j :: 0 <= j < i ==> targets[j].url != url
        invariant forall j :: 0 <= j < targets.Length ==> targets[j] == old(targets[j])
      {
        if targets[i].url == url {
          targets[i] := targets[i].(active := targets[i].active + 1);
          return;
        }
        i := i + 1;
      }
    }

    /** A failed connection: the first target of this address is left out for a while. */
    method MarkDown(url: string, now: nat, retry: nat)
      requires retry > 0
      modifies targets
      ensures forall i :: 0 <= i < targets.Length ==>
                targets[i] == if old(targets[i]).url == url && (forall j :: 0 <= j < i ==> old(targets[j]).url != url)
                              then old(targets[i]).(unhealthyUntil := now + retry) else old(targets[i])
      ensures forall i, later :: 0 <= i < targets.Length && targets[i].url == url && (forall j :: 0 <= j < i ==> targets[j].url != url) ==>
                (Healthy(targets[i], later) <==> later >= now + retry)
    {
      var i := 0;
      while i < targets.Length
        invariant 0 <= i <= targets.Length && forall j :: 0 <= j < i ==> targets[j].url != url
        invariant forall j :: 0 <= j < targets.Length ==> targets[j] == old(targets[j])
      {
        if targets[i].url == url {
          targets[i] := targets[i].(unhealthyUntil := now + retry);
          return;
        }
        i := i + 1;
      }
    }

    method DecConn(url: string)
      modifies targets
      ensures forall i :: 0 <= i < targets.Length ==>
                targets[i] == if old(targets[i]).url == url && old(targets[i]).active > 0 && (forall j :: 0 <= j < i ==> old(targets[j]).url != url)
                              then old(targets[i]).(active := old(targets[i]).active - 1) else old(targets[i])
    {
      var i := 0;
      while i < targets.Length
        invariant 0 <= i <= targets.Length && forall j :: 0 <= j < i ==> targets[j].url != url
        invariant forall j :: 0 <= j < targets.Length ==> targets[j] == old(targets[j])
      {
        if targets[i].url == url {
          if targets[i].active > 0 {
            targets[i] := targets[i].(active := targets[i].active - 1);
          }
          return;
        }
        i := i + 1;
      }
    }
  }

  // ---------------------------------------------------------------------
  // Fairness

  predicate NoRepeat(s: seq<nat>) { forall i, j :: 0 <= i < j < |s| ==> s[i] != s[j] }

  /** Below the wrap-around two of n consecutive turns never meet. */
  lemma TurnsDiffer(c: nat, a: nat, b: nat, n: nat)
    requires 0 < n && a < b < n && c + n <= TWO32
    ensures TriedIndex(c + a, 0, n) != TriedIndex(c + b, 0, n)
  {
    hide Remainder;
    RemainderNear(c + a, b - a, n);
  }

  lemma SameTurn(c: nat, t: nat, n: nat)
    requires n > 0
    ensures TriedIndex(c, t, n) == TriedIndex(c + t, 0, n)
  {
  }

  /** n requests in turn, all targets being healthy, go once to every target. */
  method OneRound(pool: UpstreamPool, now: int) returns (picks: seq<nat>)
    requires pool.Valid() && 0 < pool.targets.Length && pool.rrCounter + pool.targets.Length <= TWO32
    requires AllHealthy(pool.targets[..], now)
    modifies pool`rrCounter
    ensures |picks| == pool.targets.Length && NoRepeat(picks)
    ensures forall i :: 0 <= i < pool.targets.Length ==> i in picks
  {
    hide TriedIndex, Healthy, Tried;
    ghost var c := pool.rrCounter;
    var n := pool.targets.Length;
    picks := [];
    assert forall i :: 0 <= i < n ==> pool.targets[..][i] == pool.targets[i];
    while |picks| < n
      invariant |picks| <= n && pool.Valid() && (|picks| < n ==> pool.rrCounter == c + |picks|)
      invariant forall k :: 0 <= k < |picks| ==> picks[k] == TriedIndex(c + k, 0, n)
    {
      var chosen := pool.NextInTurn(now);
      picks := picks + [chosen.value];
    }
    forall a, b | 0 <= a < b < n
      ensures picks[a] != picks[b]
    {
      TurnsDiffer(c, a, b, n);
    }
    forall i | 0 <= i < n
      ensures i in picks
    {
      var t := TriesReach(c, n, i);
      SameTurn(c, t, n);
      assert picks[t] == TriedIndex(c + t, 0, n);
    }
  }

  predicate Balanced(targets: seq<Target>) {
    forall i, j :: 0 <= i < |targets| && 0 <= j < |targets| ==> targets[i].active <= targets[j].active + 1
  }

  /** However many requests are placed by the number of connections, no target is ever more
      than one connection ahead of another one. */
  method PlaceRequests(urls: seq<string>, requests: nat, now: int) returns (pool: UpstreamPool)
    requires 0 < |urls| <= MAX_TARGETS && forall i, j :: 0 <= i < j < |urls| ==> urls[i] != urls[j]
    requires requests < INT_MAX
    ensures pool.targets.Length == |urls| && Balanced(pool.targets[..])
  {
    pool := new UpstreamPool(urls, LeastConn);
    var placed := 0;
    while placed < requests
      invariant placed <= requests && fresh(pool) && fresh(pool.targets) && pool.Valid() && pool.mode == LeastConn && pool.targets.Length == |urls|
      invariant forall i :: 0 <= i < |urls| ==> pool.targets[i].url == urls[i] && pool.targets[i].unhealthyUntil == 0 && pool.targets[i].active <= placed
      invariant Balanced(pool.targets[..])
    {
      ghost var before := pool.targets[..];
      var chosen := pool.FewestConnections(now);
      if chosen.Some? {
        pool.IncConn(pool.targets[chosen.value].url);
        var i := chosen.value;
        assert pool.targets[..] == before[i := before[i].(active := before[i].active + 1)];
      }
      placed := placed + 1;
    }
  }
}
