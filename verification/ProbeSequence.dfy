/** The order in which an open-addressing lookup visits the slots of a table.

    Slots come in buckets of eight.  A lookup starts at slot `p0`, walks its
    bucket from there to the end and then from the beginning up to `p0 % 8`,
    and moves to another bucket by steps of 8, 16, 24, ... slots, wrapping at
    the table size.  `Probe(p0, n, t)` is the slot visited at time `t`. */
module ProbeSequence {

  const BUCKET_LENGTH: nat := 8

  ghost function Pow2(m: nat): (r: nat)
    ensures r >= 1
  {
    if m == 0 then 1 else 2 * Pow2(m - 1)
  }

  /** A table has eight slots times a power of two. */
  ghost predicate IsTableSize(n: nat) {
    exists m: nat :: n == 8 * Pow2(m)
  }

  /** The sum 1 + 2 + ... + k. */
  function Tri(k: nat): nat {
    if k == 0 then 0 else Tri(k - 1) + k
  }

  /** Bucket visited by the k-th round of a lookup that starts at slot p0. */
  ghost function BucketAt(p0: nat, n: nat, k: nat): (b: nat)
    requires n >= 8
    ensures b < n / 8
  {
    (p0 / 8 + Tri(k)) % (n / 8)
  }

  /** Slot visited at time t by a lookup that starts at slot p0. */
  ghost function Probe(p0: nat, n: nat, t: nat): (s: nat)
    requires n >= 8
    ensures s < n
  {
    8 * BucketAt(p0, n, t / 8) + (p0 + t % 8) % 8
  }

  lemma TableSizeFacts(n: nat)
    requires IsTableSize(n)
    ensures n >= 8 && n % 8 == 0
    ensures IsTableSize(2 * n)
    ensures n > 8 ==> n % 16 == 0 && IsTableSize(n / 2)
  {
    var m: nat :| n == 8 * Pow2(m);
    assert 2 * n == 8 * Pow2(m + 1);
    if m > 0 {
      assert n / 2 == 8 * Pow2(m - 1);
    }
  }

  lemma SmallestTable()
    ensures IsTableSize(8)
  {
    assert 8 == 8 * Pow2(0);
  }

  // ---------------------------------------------------------------------
  // Modular arithmetic with a symbolic modulus

  lemma MulSign(d: int, n: nat)
    ensures d >= 1 ==> d * n >= n
    ensures d <= -1 ==> d * n <= -1 * n
  {
  }

  lemma ModUnique(x: int, q: int, r: int, n: nat)
    requires n > 0 && x == q * n + r && 0 <= r < n
    ensures x % n == r && x / n == q
  {
    var d := x / n - q;
    assert x == (x / n) * n + x % n;
    assert d * n == r - x % n by {
      assert (x / n - q) * n == (x / n) * n - q * n;
    }
    MulSign(d, n);
  }

  lemma ModAdd(x: nat, s: nat, n: nat)
    requires n > 0
    ensures (x % n + s) % n == (x + s) % n
  {
    var y := x % n + s;
    var q := y / n;
    assert x + s == (x / n + q) * n + y % n by {
      assert x == (x / n) * n + x % n;
      assert y == q * n + y % n;
      assert (x / n + q) * n == (x / n) * n + q * n;
    }
    ModUnique(x + s, x / n + q, y % n, n);
  }

  /** Stepping by whole buckets keeps the offset inside the bucket. */
  lemma ModBuckets(b: nat, c: nat, k: nat)
    requires c < 8 && k > 0
    ensures (8 * b + c) % (8 * k) == 8 * (b % k) + c
  {
    assert 8 * b + c == (b / k) * (8 * k) + (8 * (b % k) + c) by {
      assert b == (b / k) * k + b % k;
    }
    assert 8 * (b % k) + c < 8 * k;
    ModUnique(8 * b + c, b / k, 8 * (b % k) + c, 8 * k);
  }

  lemma StepBuckets(x: nat, c: nat, s: nat, k: nat)
    requires c < 8 && k > 0
    ensures (8 * (x % k) + c + 8 * s) % (8 * k) == 8 * ((x + s) % k) + c
  {
    ModBuckets(x % k + s, c, k);
    ModAdd(x, s, k);
    assert 8 * (x % k + s) + c == 8 * (x % k) + c + 8 * s;
  }

  /** One `pos += step; step += 8; pos &= slot_count - 1` round. */
  lemma NextRound(p0: nat, n: nat, k: nat, pos: nat)
    requires n >= 8 && n % 8 == 0
    requires pos == 8 * BucketAt(p0, n, k) + p0 % 8
    ensures (pos + 8 * (k + 1)) % n == 8 * BucketAt(p0, n, k + 1) + p0 % 8
  {
    var nb := n / 8;
    assert n == 8 * nb;
    StepBuckets(p0 / 8 + Tri(k), p0 % 8, k + 1, nb);
    assert Tri(k + 1) == Tri(k) + (k + 1);
  }

  lemma FirstRound(p0: nat, n: nat)
    requires n >= 8 && p0 < n && n % 8 == 0
    ensures p0 == 8 * BucketAt(p0, n, 0) + p0 % 8
  {
    assert p0 / 8 < n / 8;
    ModUnique(p0 / 8, 0, p0 / 8, n / 8);
  }

  /** The bucket of a round lies inside the table, and its position keeps the start offset. */
  lemma BucketFits(p0: nat, n: nat, k: nat, pos: nat)
    requires n >= 8 && n % 8 == 0 && pos == 8 * BucketAt(p0, n, k) + p0 % 8
    ensures pos % 8 == p0 % 8 && pos - pos % 8 == 8 * BucketAt(p0, n, k) && pos - pos % 8 + 8 <= n
  {
  }

  /** From the start position to the end of the bucket. */
  lemma UpperHalf(p0: nat, n: nat, k: nat, i: nat)
    requires n >= 8 && p0 % 8 <= i < 8
    ensures Probe(p0, n, 8 * k + (i - p0 % 8)) == 8 * BucketAt(p0, n, k) + i
  {
    var j := i - p0 % 8;
    assert (8 * k + j) / 8 == k && (8 * k + j) % 8 == j;
    assert (p0 + j) % 8 == i;
  }

  /** From the beginning of the bucket to the start position. */
  lemma LowerHalf(p0: nat, n: nat, k: nat, i: nat)
    requires n >= 8 && i < p0 % 8
    ensures Probe(p0, n, 8 * k + (8 - p0 % 8) + i) == 8 * BucketAt(p0, n, k) + i
  {
    var j := (8 - p0 % 8) + i;
    assert (8 * k + j) / 8 == k && (8 * k + j) % 8 == j;
    assert (p0 + j) % 8 == i;
  }

  // ---------------------------------------------------------------------
  // Triangular steps visit every bucket of a power-of-two table

  lemma {:induction false} TwiceTri(k: nat)
    ensures 2 * Tri(k) == k * (k + 1)
  {
    if k > 0 {
      TwiceTri(k - 1);
      assert 2 * Tri(k) == (k - 1) * k + 2 * k == k * (k + 1);
    }
  }

  lemma OddTimesOdd(a: nat, b: nat)
    requires a % 2 == 1 && b % 2 == 1
    ensures (a * b) % 2 == 1
  {
    var x, y := a / 2, b / 2;
    assert a * b == (2 * x + 1) * b == 2 * (x * b) + b == 2 * (x * b + y) + 1;
  }

  /** If 2^m divides a product whose first factor is odd, it divides the second. */
  lemma {:induction false} OddFactor(m: nat, a: nat, b: nat, q: nat)
    requires a % 2 == 1 && a * b == q * Pow2(m)
    ensures exists r: nat :: b == r * Pow2(m)
  {
    if m == 0 {
      assert b == b * Pow2(0);
    } else {
      var p := Pow2(m - 1);
      assert a * b == 2 * (q * p);
      if b % 2 == 1 {
        OddTimesOdd(a, b);
        assert false;
      }
      var c := b / 2;
      assert a * c == q * p by {
        assert a * (2 * c) == 2 * (a * c);
      }
      OddFactor(m - 1, a, c, q);
      var r: nat :| c == r * p;
      assert b == r * Pow2(m);
    }
  }

  lemma MultipleTooSmall(r: nat, p: nat, x: nat)
    requires x == r * p && x < p
    ensures x == 0
  {
    MulSign(r, p);
  }

  lemma OddTimesSmall(m: nat, x: nat, y: nat, d: nat)
    requires x % 2 == 1 && y < Pow2(m) && x * y == d * Pow2(m)
    ensures y == 0
  {
    OddFactor(m, x, y, d);
    var r: nat :| y == r * Pow2(m);
    MultipleTooSmall(r, Pow2(m), y);
  }

  /** No multiple of 2^m splits into two smaller positive factors of opposite parity. */
  lemma OppositeParity(m: nat, x: nat, y: nat, d: nat)
    requires x < Pow2(m) && y < Pow2(m) && (x + y) % 2 == 1
    requires x * y == d * Pow2(m)
    ensures x == 0 || y == 0
  {
    if x % 2 == 1 {
      OddTimesSmall(m, x, y, d);
    } else {
      OddTimesSmall(m, y, x, d);
    }
  }

  lemma TriDifference(i: nat, j: nat)
    requires i <= j
    ensures 2 * (Tri(j) - Tri(i)) == (j - i) * (j + i + 1)
  {
    TwiceTri(i);
    TwiceTri(j);
    assert (j - i) * (j + i + 1) == j * (j + 1) - i * (i + 1);
  }

  lemma {:induction false} TriMonotone(i: nat, j: nat)
    requires i <= j
    ensures Tri(i) <= Tri(j)
    decreases j
  {
    if i < j {
      TriMonotone(i, j - 1);
    }
  }

  lemma SameRemainder(x: nat, y: nat, n: nat) returns (d: nat)
    requires n > 0 && x <= y && x % n == y % n
    ensures y - x == d * n
  {
    var e := y / n - x / n;
    assert y == y / n * n + y % n && x == x / n * n + x % n;
    assert e * n == y / n * n - x / n * n;
    MulSign(e, n);
    d := e;
  }

  lemma DoubleMultiple(d: nat, n: nat)
    ensures d * (2 * n) == 2 * (d * n)
  {
  }

  lemma TriDistinct(m: nat, b0: nat, i: nat, j: nat)
    requires i < j < Pow2(m)
    ensures (b0 + Tri(i)) % Pow2(m) != (b0 + Tri(j)) % Pow2(m)
  {
    var n := Pow2(m);
    if (b0 + Tri(i)) % n == (b0 + Tri(j)) % n {
      TriMonotone(i, j);
      var d := SameRemainder(b0 + Tri(i), b0 + Tri(j), n);
      TriDifference(i, j);
      DoubleMultiple(d, n);
      OppositeParity(m + 1, j - i, j + i + 1, d);
    }
  }

  lemma ProbeDistinct(p0: nat, n: nat, t: nat, u: nat)
    requires n >= 8 && IsTableSize(n) && t < u < n
    ensures Probe(p0, n, t) != Probe(p0, n, u)
  {
    var m: nat :| n == 8 * Pow2(m);
    var i, j := t / 8, u / 8;
    if i == j {
      assert t % 8 != u % 8;
    } else {
      assert n / 8 == Pow2(m) && i < j < Pow2(m);
      TriDistinct(m, p0 / 8, i, j);
    }
  }

  ghost function Elements(a: seq<nat>): set<nat> {
    set x | x in a
  }

  /** A list of n distinct numbers below n contains every number below n. */
  lemma DistinctIsOnto(a: seq<nat>, n: nat, v: nat)
    requires |a| == n && v < n
    requires forall i :: 0 <= i < n ==> a[i] < n
    requires forall i, j :: 0 <= i < j < n ==> a[i] != a[j]
    ensures v in a
  {
    ElementCount(a);
    if v !in a {
      CountBelow(Elements(a) + {v}, n);
      assert false;
    }
  }

  lemma {:induction false} ElementCount(a: seq<nat>)
    requires forall i, j :: 0 <= i < j < |a| ==> a[i] != a[j]
    ensures |Elements(a)| == |a|
  {
    if a != [] {
      var last := |a| - 1;
      ElementCount(a[..last]);
      assert Elements(a) == Elements(a[..last]) + {a[last]};
    }
  }

  lemma {:induction false} CountBelow(s: set<nat>, n: nat)
    requires forall x :: x in s ==> x < n
    ensures |s| <= n
  {
    if n == 0 {
      assert s == {};
    } else {
      CountBelow(s - {n - 1}, n - 1);
    }
  }

  /** Every slot of the table is visited within `n` probes, wherever the lookup starts. */
  lemma ProbeReachesEverySlot(p0: nat, n: nat, s: nat)
    requires n >= 8 && IsTableSize(n) && s < n
    ensures exists t: nat :: t < n && Probe(p0, n, t) == s
  {
    var visited := seq(n, t requires 0 <= t < n => Probe(p0, n, t));
    forall i, j | 0 <= i < j < n
      ensures visited[i] != visited[j]
    {
      ProbeDistinct(p0, n, i, j);
    }
    DistinctIsOnto(visited, n, s);
    var t: nat :| t < n && visited[t] == s;
    assert Probe(p0, n, t) == s;
  }
}
