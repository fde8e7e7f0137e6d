/** Where a mode begins to look for a target, and which one it finds, in terms of the address, the descriptor and the
    places of the targets. */
module BalanceStart {
  import opened Text
  import opened Numerals
  import opened LoadBalance

  // ---------------------------------------------------------------------
  // The hash of an address

  ghost function Codes(s: string): seq<nat> { seq(|s|, i requires 0 <= i < |s| => s[i] as nat) }

  lemma ModStep(x: nat, c: nat, m: nat)
    requires m > 0
    ensures (x % m * 33 + c) % m == (x * 33 + c) % m
  {
    var q, r := x / m, x % m;
    assert x == q * m + r;
    assert x * 33 + c == (q * 33) * m + (r * 33 + c);
    ModAdd(q * 33, m, r * 33 + c);
  }

  lemma ModAdd(q: nat, m: nat, a: nat)
    requires m > 0
    ensures (q * m + a) % m == a % m
  {
    var k, r := a / m, a % m;
    assert a == k * m + r;
    assert q * m + a == (q + k) * m + r;
    RemainderIs(q * m + a, q + k, r, m);
  }

  /** The hash of an address: 5381 and its bytes as the digits of a number in base 33, in 64 bits. */
  lemma {:induction false} AddressHashIs(ip: string)
    ensures AddressHash(ip) == (5381 * Power(33, |ip|) + Positional(Codes(ip), 33)) % 18446744073709551616
  {
    if ip == "" {
      assert Codes(ip) == [] && Power(33, 0) == 1;
    } else {
      var init, c, n := ip[..|ip| - 1], ip[|ip| - 1] as nat, |ip| - 1;
      AddressHashIs(init);
      assert Codes(ip) == Codes(init) + [c];
      PositionalSnoc(Codes(init), c, 33);
      var x := 5381 * Power(33, n) + Positional(Codes(init), 33);
      ModStep(x, c, 18446744073709551616);
      assert Power(33, n + 1) == 33 * Power(33, n);
      assert x * 33 + c == 5381 * Power(33, n + 1) + Positional(Codes(ip), 33);
    }
  }

  // ---------------------------------------------------------------------
  // The hash of a descriptor

  /** The binary digit of this place. */
  ghost function Bit(n: nat, k: nat): nat { if k == 0 then n % 2 else Bit(n / 2, k - 1) }

  ghost predicate ExclusiveOr(r: nat, a: nat, b: nat) { forall k: nat :: Bit(r, k) == if Bit(a, k) == Bit(b, k) then 0 else 1 }

  lemma {:induction false} XorBit(a: nat, b: nat, k: nat)
    ensures Bit(Xor(a, b), k) == if Bit(a, k) == Bit(b, k) then 0 else 1
    decreases k
  {
    var r := Xor(a, b);
    assert r % 2 == (a % 2 + b % 2) % 2 && r / 2 == Xor(a / 2, b / 2);
    if k > 0 {
      XorBit(a / 2, b / 2, k - 1);
    }
  }

  lemma XorIs(a: nat, b: nat)
    ensures ExclusiveOr(Xor(a, b), a, b)
  {
    forall k: nat
      ensures Bit(Xor(a, b), k) == if Bit(a, k) == Bit(b, k) then 0 else 1
    {
      XorBit(a, b, k);
    }
  }

  /** The number mixed with its own upper half. */
  ghost predicate Folded(r: nat, n: nat) { ExclusiveOr(r, n, n / 65536) }

  /** The hash of a descriptor: folded, multiplied and folded again, in 32 bits. */
  lemma DescriptorHashIs(fd: nat)
    ensures exists g: nat :: Folded(g, fd % 4294967296) && Folded(DescriptorHash(fd), g * 73244475 % 4294967296)
  {
    hide Xor, ExclusiveOr;
    var h := fd % 4294967296;
    var g := Xor(h, h / 65536);
    XorIs(h, h / 65536);
    var m := g * 73244475 % 4294967296;
    XorIs(m, m / 65536);
    assert Folded(g, h);
  }

  // ---------------------------------------------------------------------
  // The beginning

  /** By address the beginning depends on the address alone, by descriptor on the descriptor alone, by chance on the random
      number alone, and in turn on the counter alone. */
  lemma StartIs(mode: Mode, counter: nat, random: nat, ip: string, fd: nat, n: nat)
    requires n > 0
    ensures var start := Start(mode, counter, random, ip, fd, n);
            && (mode == RoundRobin ==> start == counter)
            && (mode == Random ==> start == random % n)
            && (mode == IpHash ==> start == (5381 * Power(33, |ip|) + Positional(Codes(ip), 33)) % 18446744073709551616 % n)
            && (mode == ConnHash ==> exists g: nat, h: nat :: Folded(g, fd % 4294967296) && Folded(h, g * 73244475 % 4294967296) && start == h % n)
  {
    hide AddressHash, DescriptorHash, Positional, Power, Codes, Folded;
    AddressHashIs(ip);
    DescriptorHashIs(fd);
    if mode == ConnHash {
      var g: nat :| Folded(g, fd % 4294967296) && Folded(DescriptorHash(fd), g * 73244475 % 4294967296);
      assert Folded(DescriptorHash(fd), g * 73244475 % 4294967296) && Start(mode, counter, random, ip, fd, n) == DescriptorHash(fd) % n;
    }
  }

  // ---------------------------------------------------------------------
  // The choice

  /** It was never marked down, or its time is over. */
  ghost predicate Up(t: Target, now: int) { t.unhealthyUntil == 0 || t.unhealthyUntil <= now }

  /** The place of the target that is tried in this round. */
  ghost function Place(start: nat, round: nat, n: nat): nat
    requires n > 0
  {
    (start + round) % 4294967296 % n
  }

  /** The first target that is up, going round once from the start. */
  ghost predicate FirstUp(targets: seq<Target>, start: nat, now: int, round: nat)
    requires targets != []
  {
    && round < |targets| && Up(targets[Place(start, round, |targets|)], now)
    && forall earlier: nat :: earlier < round ==> !Up(targets[Place(start, earlier, |targets|)], now)
  }

  lemma {:induction false} FirstHealthyFrom(targets: seq<Target>, start: nat, tries: nat, now: int) returns (round: nat)
    requires targets != [] && tries <= |targets|
    requires forall earlier: nat :: earlier < tries ==> !Up(targets[Place(start, earlier, |targets|)], now)
    ensures match FirstHealthy(targets, start, tries, now)
            case Some(i) => FirstUp(targets, start, now, round) && i == Place(start, round, |targets|)
            case None => forall any: nat :: any < |targets| ==> !Up(targets[Place(start, any, |targets|)], now)
    decreases |targets| - tries
  {
    round := tries;
    if tries < |targets| && !Up(targets[Place(start, tries, |targets|)], now) {
      round := FirstHealthyFrom(targets, start, tries + 1, now);
    }
  }

  /** The target found is the first one that is up; none is found exactly when no tried one is. */
  lemma FirstHealthyIs(targets: seq<Target>, start: nat, now: int)
    requires targets != []
    ensures match FirstHealthy(targets, start, 0, now)
            case Some(i) => exists round :: FirstUp(targets, start, now, round) && i == Place(start, round, |targets|)
            case None => forall any: nat :: any < |targets| ==> !Up(targets[Place(start, any, |targets|)], now)
  {
    hide FirstHealthy;
    var round := FirstHealthyFrom(targets, start, 0, now);
  }
}
