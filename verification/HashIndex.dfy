/** The slot table behind every integer-keyed map of the proxy: open addressing
    over eight-slot buckets with tombstones.

    A slot is a pair of a stored hash and an index into a dense entry array.
    Stored hash 0 marks a slot that was never used, 1 a tombstone, and every
    other value a live entry.  This module holds the meaning of a table as
    values: `LinkedFor` says which entries a lookup can reach, and the lemmas
    say what each write to a slot does to that. */
module HashIndex {
  import opened ProbeSequence

  const INDEX_EMPTY: int := -1
  const INDEX_DELETED: int := -2
  const HASH_EMPTY: int := 0
  const HASH_DELETED: int := 1

  /** Hashes 0 and 1 are reserved for empty slots and tombstones. */
  function StoredHash(raw: nat): (h: nat)
    ensures h >= 2
  {
    if raw < 2 then raw + 2 else raw
  }

  /** Only the two reserved hashes are moved, and to the next two. */
  lemma StoredHashIs(raw: nat)
    ensures StoredHash(0) == 2 && StoredHash(1) == 3 && (raw >= 2 ==> StoredHash(raw) == raw)
  {
  }

  function UsedThreshold(n: nat): nat { n - n / 4 }

  function TombstoneThreshold(n: nat): nat { n / 8 + n / 16 }

  function ShrinkThreshold(n: nat): nat {
    if n <= BUCKET_LENGTH then 0 else n / 4
  }

  /** A table filled up to both thresholds still has an empty slot. */
  lemma ThresholdsLeaveRoom(n: nat)
    requires n >= 8 && n % 8 == 0
    ensures UsedThreshold(n) + TombstoneThreshold(n) < n
  {
  }

  /** Three quarters of the slots, three sixteenths and one quarter; the smallest table does not shrink. */
  lemma ThresholdsAre(n: nat)
    requires n >= 16 && n % 16 == 0
    ensures 4 * UsedThreshold(n) == 3 * n && 16 * TombstoneThreshold(n) == 3 * n && 4 * ShrinkThreshold(n) == n
    ensures UsedThreshold(8) == 6 && TombstoneThreshold(8) == 1 && ShrinkThreshold(8) == 0
  {
    var k := n / 16;
    assert n == 16 * k;
    assert n / 4 == 4 * k && n / 8 == 2 * k;
  }

  ghost predicate SameLength(hash: seq<int>, index: seq<int>) {
    |hash| == |index| && |hash| >= 8 && IsTableSize(|hash|)
  }

  /** Slot where a lookup for the key of entry i starts. */
  ghost function Home(n: nat, hasher: int -> nat, key: int): (p: nat)
    requires n > 0
    ensures p < n
  {
    StoredHash(hasher(key)) % n
  }

  /** Slot of entry i, given the time its lookup takes. */
  ghost function Place(n: nat, hasher: int -> nat, key: int, depth: nat): (s: nat)
    requires n >= 8
    ensures s < n
  {
    Probe(Home(n, hasher, key), n, depth)
  }

  /** Empty and deleted slots are marked in both arrays, live slots carry the hash of their key. */
  ghost predicate SlotsOk(hash: seq<int>, index: seq<int>, keys: seq<int>, hasher: int -> nat)
    requires |hash| == |index|
  {
    forall s :: 0 <= s < |hash| ==>
      && hash[s] >= 0
      && (hash[s] == HASH_EMPTY ==> index[s] == INDEX_EMPTY)
      && (hash[s] == HASH_DELETED ==> index[s] == INDEX_DELETED)
      && (hash[s] >= 2 ==> 0 <= index[s] < |keys| && hash[s] == StoredHash(hasher(keys[index[s]])))
  }

  /** A lookup for `key` meets slot Place(..., depth), which holds entry i, before any empty slot. */
  ghost predicate ReachedAt(hash: seq<int>, index: seq<int>, hasher: int -> nat, key: int, depth: nat, i: int)
    requires SameLength(hash, index)
  {
    var n := |hash|;
    var s := Place(n, hasher, key, depth);
    && depth < n
    && hash[s] >= 2
    && index[s] == i
    && forall t: nat :: t < depth ==> hash[Place(n, hasher, key, t)] != HASH_EMPTY
  }

  /** The entries in `done`, and no others, are stored, each in exactly one slot on its probe path. */
  ghost predicate LinkedFor(hash: seq<int>, index: seq<int>, keys: seq<int>, depth: seq<nat>, hasher: int -> nat,
                            done: set<int>)
  {
    && SameLength(hash, index)
    && SlotsOk(hash, index, keys, hasher)
    && |depth| == |keys|
    && (forall s :: 0 <= s < |hash| && hash[s] >= 2 ==>
          index[s] in done && s == Place(|hash|, hasher, keys[index[s]], depth[index[s]]))
    && (forall i :: i in done ==> 0 <= i < |keys| && ReachedAt(hash, index, hasher, keys[i], depth[i], i))
  }

  ghost function AllIndices(n: nat): (r: set<int>)
    ensures forall i :: i in r <==> 0 <= i < n
  {
    if n == 0 then {} else AllIndices(n - 1) + {n - 1}
  }

  ghost predicate Linked(hash: seq<int>, index: seq<int>, keys: seq<int>, depth: seq<nat>, hasher: int -> nat) {
    LinkedFor(hash, index, keys, depth, hasher, AllIndices(|keys|))
  }

  /** The counters are the numbers of live slots and tombstones; what remains is empty. */
  ghost predicate CountersOk(hash: seq<int>, used: nat, tombstones: nat) {
    && tombstones == multiset(hash)[HASH_DELETED]
    && used + tombstones + multiset(hash)[HASH_EMPTY] == |hash|
  }

  ghost predicate DistinctKeys(keys: seq<int>) {
    forall i, j :: 0 <= i < j < |keys| ==> keys[i] != keys[j]
  }

  // ---------------------------------------------------------------------
  // Lookups

  /** The slot does not end a lookup for key: it is not empty and does not hold it. */
  ghost predicate Passed(hash: seq<int>, index: seq<int>, keys: seq<int>, h: int, key: int, s: nat)
    requires |hash| == |index| && s < |hash|
  {
    hash[s] != HASH_EMPTY && !(hash[s] == h && 0 <= index[s] < |keys| && keys[index[s]] == key)
  }

  /** All slots visited before time t are passed. */
  ghost predicate PassedUpTo(hash: seq<int>, index: seq<int>, keys: seq<int>, h: int, key: int, p0: nat, t: nat)
    requires |hash| == |index| && |hash| >= 8
  {
    forall u: nat :: u < t ==> Passed(hash, index, keys, h, key, Probe(p0, |hash|, u))
  }

  /** The first slot that ends a lookup for key is the empty one visited at time t. */
  ghost predicate MissedAt(hash: seq<int>, index: seq<int>, keys: seq<int>, h: int, key: int, p0: nat, t: nat)
    requires |hash| == |index| && |hash| >= 8
  {
    hash[Probe(p0, |hash|, t)] == HASH_EMPTY && PassedUpTo(hash, index, keys, h, key, p0, t)
  }

  /** Consecutive slots lo .. hi of one bucket are all passed. */
  ghost predicate PassedSlots(hash: seq<int>, index: seq<int>, keys: seq<int>, h: int, key: int, lo: nat, hi: nat)
    requires |hash| == |index| && hi <= |hash|
  {
    forall s: nat :: lo <= s < hi ==> Passed(hash, index, keys, h, key, s)
  }

  /** The first half of a round: from the start position to slot `hi` of the bucket. */
  lemma UpperPassed(hash: seq<int>, index: seq<int>, keys: seq<int>, h: int, key: int, p0: nat, round: nat, hi: nat)
    requires |hash| == |index| && |hash| >= 8 && |hash| % 8 == 0 && p0 % 8 <= hi <= 8
    requires PassedUpTo(hash, index, keys, h, key, p0, 8 * round)
    requires var base := 8 * BucketAt(p0, |hash|, round);
             PassedSlots(hash, index, keys, h, key, base + p0 % 8, base + hi)
    ensures PassedUpTo(hash, index, keys, h, key, p0, 8 * round + (hi - p0 % 8))
  {
    hide Passed, BucketAt, Probe;
    forall u: nat | 8 * round <= u < 8 * round + (hi - p0 % 8)
      ensures Passed(hash, index, keys, h, key, Probe(p0, |hash|, u))
    {
      UpperHalf(p0, |hash|, round, u - 8 * round + p0 % 8);
    }
  }

  /** The second half of a round: from the beginning of the bucket to slot `hi`. */
  lemma LowerPassed(hash: seq<int>, index: seq<int>, keys: seq<int>, h: int, key: int, p0: nat, round: nat, hi: nat)
    requires |hash| == |index| && |hash| >= 8 && |hash| % 8 == 0 && hi <= p0 % 8
    requires PassedUpTo(hash, index, keys, h, key, p0, 8 * round + (8 - p0 % 8))
    requires var base := 8 * BucketAt(p0, |hash|, round);
             PassedSlots(hash, index, keys, h, key, base, base + hi)
    ensures PassedUpTo(hash, index, keys, h, key, p0, 8 * round + (8 - p0 % 8) + hi)
  {
    hide Passed, BucketAt, Probe;
    var mid := 8 * round + (8 - p0 % 8);
    forall u: nat | mid <= u < mid + hi
      ensures Passed(hash, index, keys, h, key, Probe(p0, |hash|, u))
    {
      LowerHalf(p0, |hash|, round, u - mid);
    }
  }

  /** `tombstone` is -1 or a deleted slot visited before time t. */
  ghost predicate TombstoneSeen(hash: seq<int>, p0: nat, tombstone: int, t: nat)
    requires |hash| >= 8
  {
    tombstone == -1 ||
    (0 <= tombstone < |hash| && hash[tombstone] == HASH_DELETED &&
     exists u: nat :: u < t && Probe(p0, |hash|, u) == tombstone)
  }

  lemma UpperStep(hash: seq<int>, index: seq<int>, keys: seq<int>, h: int, key: int, p0: nat, round: nat,
                  base: nat, hi: nat, seen: int, tombstone: int)
    requires |hash| == |index| && |hash| >= 8 && |hash| % 8 == 0 && p0 % 8 <= hi <= 8
    requires base == 8 * BucketAt(p0, |hash|, round)
    requires PassedUpTo(hash, index, keys, h, key, p0, 8 * round) && TombstoneSeen(hash, p0, seen, 8 * round)
    requires PassedSlots(hash, index, keys, h, key, base + p0 % 8, base + hi)
    requires tombstone == seen || (base + p0 % 8 <= tombstone < base + hi && hash[tombstone] == HASH_DELETED)
    ensures var t := 8 * round + (hi - p0 % 8);
            && PassedUpTo(hash, index, keys, h, key, p0, t) && TombstoneSeen(hash, p0, tombstone, t)
            && (hi < 8 ==> Probe(p0, |hash|, t) == base + hi)
  {
    hide Passed, PassedUpTo, PassedSlots, BucketAt, Probe;
    UpperPassed(hash, index, keys, h, key, p0, round, hi);
    if tombstone != seen {
      UpperHalf(p0, |hash|, round, tombstone - base);
    }
    if hi < 8 {
      UpperHalf(p0, |hash|, round, hi);
    }
  }

  lemma LowerStep(hash: seq<int>, index: seq<int>, keys: seq<int>, h: int, key: int, p0: nat, round: nat,
                  base: nat, hi: nat, seen: int, tombstone: int)
    requires |hash| == |index| && |hash| >= 8 && |hash| % 8 == 0 && hi <= p0 % 8
    requires base == 8 * BucketAt(p0, |hash|, round)
    requires PassedUpTo(hash, index, keys, h, key, p0, 8 * round + (8 - p0 % 8))
    requires TombstoneSeen(hash, p0, seen, 8 * round + (8 - p0 % 8))
    requires PassedSlots(hash, index, keys, h, key, base, base + hi)
    requires tombstone == seen || (base <= tombstone < base + hi && hash[tombstone] == HASH_DELETED)
    ensures var t := 8 * round + (8 - p0 % 8) + hi;
            && PassedUpTo(hash, index, keys, h, key, p0, t) && TombstoneSeen(hash, p0, tombstone, t)
            && (hi < p0 % 8 ==> Probe(p0, |hash|, t) == base + hi)
  {
    hide Passed, PassedUpTo, PassedSlots, BucketAt, Probe;
    LowerPassed(hash, index, keys, h, key, p0, round, hi);
    if tombstone != seen {
      LowerHalf(p0, |hash|, round, tombstone - base);
    }
    if hi < p0 % 8 {
      LowerHalf(p0, |hash|, round, hi);
    }
  }

  ghost predicate Matches(hash: seq<int>, index: seq<int>, keys: seq<int>, h: int, key: int, s: int)
    requires |hash| == |index|
  {
    0 <= s < |hash| && hash[s] == h && 0 <= index[s] < |keys| && keys[index[s]] == key
  }

  /** An empty slot exists whenever the counters leave room for one, and every lookup gets to it. */
  lemma EmptySlotAhead(hash: seq<int>, used: nat, tombstones: nat, p0: nat) returns (t: nat)
    requires |hash| >= 8 && IsTableSize(|hash|)
    requires CountersOk(hash, used, tombstones) && used + tombstones < |hash|
    ensures t < |hash| && hash[Probe(p0, |hash|, t)] == HASH_EMPTY
  {
    assert HASH_EMPTY in multiset(hash);
    var s: nat :| s < |hash| && hash[s] == HASH_EMPTY;
    ProbeReachesEverySlot(p0, |hash|, s);
    t :| t < |hash| && Probe(p0, |hash|, t) == s;
  }

  lemma ReachedIsNotMissed(hash: seq<int>, index: seq<int>, keys: seq<int>, hasher: int -> nat,
                           depth: nat, i: nat, t: nat)
    requires SameLength(hash, index) && SlotsOk(hash, index, keys, hasher) && i < |keys|
    requires ReachedAt(hash, index, hasher, keys[i], depth, i)
    ensures !MissedAt(hash, index, keys, StoredHash(hasher(keys[i])), keys[i], Home(|hash|, hasher, keys[i]), t)
  {
    var n := |hash|;
    if depth < t {
      assert !Passed(hash, index, keys, StoredHash(hasher(keys[i])), keys[i], Probe(Home(n, hasher, keys[i]), n, depth));
    } else if t < depth {
      assert hash[Place(n, hasher, keys[i], t)] != HASH_EMPTY;
    }
  }

  /** A lookup gets no further than an empty slot on its path. */
  lemma EmptySlotStops(hash: seq<int>, index: seq<int>, keys: seq<int>, h: int, key: int, p0: nat, t: nat, end: nat)
    requires |hash| == |index| && |hash| >= 8 && hash[Probe(p0, |hash|, end)] == HASH_EMPTY
    requires PassedUpTo(hash, index, keys, h, key, p0, t)
    ensures t <= end
  {
    assert !Passed(hash, index, keys, h, key, Probe(p0, |hash|, end));
  }

  lemma LookupStarts(hash: seq<int>, index: seq<int>, keys: seq<int>, h: int, key: int, p0: nat)
    requires |hash| == |index| && |hash| >= 8
    ensures PassedUpTo(hash, index, keys, h, key, p0, 0) && TombstoneSeen(hash, p0, -1, 0)
  {
  }

  lemma MissStops(hash: seq<int>, index: seq<int>, keys: seq<int>, h: int, key: int, p0: nat, t: nat, end: nat)
    requires |hash| == |index| && |hash| >= 8 && hash[Probe(p0, |hash|, end)] == HASH_EMPTY
    requires MissedAt(hash, index, keys, h, key, p0, t)
    ensures t <= end
  {
    EmptySlotStops(hash, index, keys, h, key, p0, t, end);
  }

  /** A search for a hash that no slot has passes exactly the slots that are not empty. */
  lemma AllPassedNoHash(hash: seq<int>, index: seq<int>, p0: nat, t: nat)
    requires |hash| == |index| && |hash| >= 8 && PassedUpTo(hash, index, [], -1, 0, p0, t)
    ensures forall u: nat :: u < t ==> hash[Probe(p0, |hash|, u)] != HASH_EMPTY
  {
    forall u: nat | u < t
      ensures hash[Probe(p0, |hash|, u)] != HASH_EMPTY
    {
      assert Passed(hash, index, [], -1, 0, Probe(p0, |hash|, u));
    }
  }

  /** A lookup that ends at an empty slot proves the key is in no linked entry. */
  lemma MissMeansAbsent(hash: seq<int>, index: seq<int>, keys: seq<int>, depth: seq<nat>, hasher: int -> nat,
                        done: set<int>, key: int, t: nat)
    requires LinkedFor(hash, index, keys, depth, hasher, done)
    requires MissedAt(hash, index, keys, StoredHash(hasher(key)), key, Home(|hash|, hasher, key), t)
    ensures forall i :: i in done ==> keys[i] != key
  {
    forall i | i in done
      ensures keys[i] != key
    {
      ReachedIsNotMissed(hash, index, keys, hasher, depth[i], i, t);
    }
  }

  /** The slots visited by a lookup for key before time t were all used at some point. */
  ghost predicate NoEmptyBefore(hash: seq<int>, hasher: int -> nat, key: int, t: nat)
    requires |hash| >= 8
  {
    forall u: nat :: u < t ==> hash[Place(|hash|, hasher, key, u)] != HASH_EMPTY
  }

  /** What an insertion learns from a failed lookup: the key is new, and the first tombstone
      met (or else the empty slot at the end) is a free slot on its probe path. */
  lemma MissGivesSlot(hash: seq<int>, index: seq<int>, keys: seq<int>, depth: seq<nat>, hasher: int -> nat,
                      key: int, slot: nat, tombstone: int, t: nat) returns (u: nat)
    requires Linked(hash, index, keys, depth, hasher)
    requires t < |hash| && slot == Place(|hash|, hasher, key, t) && tombstone >= -1
    requires MissedAt(hash, index, keys, StoredHash(hasher(key)), key, Home(|hash|, hasher, key), t)
    requires TombstoneSeen(hash, Home(|hash|, hasher, key), tombstone, t)
    ensures key !in keys
    ensures u < |hash| && NoEmptyBefore(hash, hasher, key, u)
    ensures var pos := if tombstone >= 0 then tombstone else slot;
            && pos < |hash| && pos == Place(|hash|, hasher, key, u)
            && hash[pos] == if tombstone >= 0 then HASH_DELETED else HASH_EMPTY
  {
    MissMeansAbsent(hash, index, keys, depth, hasher, AllIndices(|keys|), key, t);
    if tombstone >= 0 {
      u :| u < t && Probe(Home(|hash|, hasher, key), |hash|, u) == tombstone;
    } else {
      u := t;
    }
    forall v: nat | v < u
      ensures hash[Place(|hash|, hasher, key, v)] != HASH_EMPTY
    {
      assert Passed(hash, index, keys, StoredHash(hasher(key)), key, Probe(Home(|hash|, hasher, key), |hash|, v));
    }
  }

  // ---------------------------------------------------------------------
  // Writes

  lemma MultisetUpdate(s: seq<int>, i: nat, v: int)
    requires i < |s|
    ensures multiset(s[i := v]) == multiset(s)[s[i] := multiset(s)[s[i]] - 1] + multiset{v}
  {
  }

  /** Storing entry i in a free slot on its probe path links it and disturbs no other. */
  lemma StoreLinks(hash: seq<int>, index: seq<int>, keys: seq<int>, depth: seq<nat>, hasher: int -> nat,
                   done: set<int>, i: nat, t: nat)
    requires LinkedFor(hash, index, keys, depth, hasher, done)
    requires i < |keys| && i !in done
    requires t < |hash|
    requires hash[Place(|hash|, hasher, keys[i], t)] < 2
    requires forall u: nat :: u < t ==> hash[Place(|hash|, hasher, keys[i], u)] != HASH_EMPTY
    ensures var s := Place(|hash|, hasher, keys[i], t);
            LinkedFor(hash[s := StoredHash(hasher(keys[i]))], index[s := i], keys, depth[i := t], hasher, done + {i})
  {
    var n := |hash|;
    var s := Place(n, hasher, keys[i], t);
    var hash', index', depth' := hash[s := StoredHash(hasher(keys[i]))], index[s := i], depth[i := t];
    forall j | j in done + {i}
      ensures 0 <= j < |keys| && ReachedAt(hash', index', hasher, keys[j], depth'[j], j)
    {
      if j in done {
        assert ReachedAt(hash, index, hasher, keys[j], depth[j], j);
      }
    }
  }

  /** A new key at the end of the entry array is not linked yet. */
  lemma AppendKey(hash: seq<int>, index: seq<int>, keys: seq<int>, depth: seq<nat>, hasher: int -> nat,
                  done: set<int>, key: int)
    requires LinkedFor(hash, index, keys, depth, hasher, done)
    ensures LinkedFor(hash, index, keys + [key], depth + [0], hasher, done)
  {
    forall i | i in done
      ensures ReachedAt(hash, index, hasher, (keys + [key])[i], (depth + [0])[i], i)
    {
      assert ReachedAt(hash, index, hasher, keys[i], depth[i], i);
    }
  }

  /** Turning the slot of entry i into a tombstone unlinks it and disturbs no other. */
  lemma TombstoneUnlinks(hash: seq<int>, index: seq<int>, keys: seq<int>, depth: seq<nat>, hasher: int -> nat,
                         done: set<int>, s: nat)
    requires LinkedFor(hash, index, keys, depth, hasher, done)
    requires s < |hash| && hash[s] >= 2
    ensures LinkedFor(hash[s := HASH_DELETED], index[s := INDEX_DELETED], keys, depth, hasher, done - {index[s]})
  {
    var hash', index' := hash[s := HASH_DELETED], index[s := INDEX_DELETED];
    forall i | i in done - {index[s]}
      ensures ReachedAt(hash', index', hasher, keys[i], depth[i], i)
    {
      assert ReachedAt(hash, index, hasher, keys[i], depth[i], i);
    }
  }

  /** Moving the last key into the hole `i` and re-pointing its slot keeps every other entry linked. */
  lemma MoveLast(hash: seq<int>, index: seq<int>, keys: seq<int>, depth: seq<nat>, hasher: int -> nat,
                 done: set<int>, i: nat, s: nat)
    requires LinkedFor(hash, index, keys, depth, hasher, done)
    requires i < |keys| - 1 && i !in done
    requires s < |hash| && hash[s] >= 2 && index[s] == |keys| - 1
    ensures var last := |keys| - 1;
            LinkedFor(hash, index[s := i], keys[i := keys[last]][..last], depth[i := depth[last]][..last], hasher,
                      done - {last} + {i})
  {
    var last := |keys| - 1;
    var index', keys', depth' := index[s := i], keys[i := keys[last]][..last], depth[i := depth[last]][..last];
    forall j | j in done - {last} + {i}
      ensures 0 <= j < |keys'| && ReachedAt(hash, index', hasher, keys'[j], depth'[j], j)
    {
      if j == i {
        assert ReachedAt(hash, index, hasher, keys[last], depth[last], last);
      } else {
        assert ReachedAt(hash, index, hasher, keys[j], depth[j], j);
      }
    }
    forall q | 0 <= q < |hash| && hash[q] >= 2
      ensures index'[q] in done - {last} + {i} && q == Place(|hash|, hasher, keys'[index'[q]], depth'[index'[q]])
      ensures 0 <= index'[q] < |keys'| && hash[q] == StoredHash(hasher(keys'[index'[q]]))
    {
    }
  }

  /** Forgetting an unlinked last key. */
  lemma DropLast(hash: seq<int>, index: seq<int>, keys: seq<int>, depth: seq<nat>, hasher: int -> nat, done: set<int>)
    requires LinkedFor(hash, index, keys, depth, hasher, done)
    requires |keys| > 0 && |keys| - 1 !in done
    ensures LinkedFor(hash, index, keys[..|keys| - 1], depth[..|keys| - 1], hasher, done)
  {
    forall i | i in done
      ensures 0 <= i < |keys| - 1 && ReachedAt(hash, index, hasher, keys[..|keys| - 1][i], depth[..|keys| - 1][i], i)
    {
      assert ReachedAt(hash, index, hasher, keys[i], depth[i], i);
    }
  }

  /** Appending a fresh key and storing it at time t of its lookup. */
  lemma InsertLinks(hash: seq<int>, index: seq<int>, keys: seq<int>, depth: seq<nat>, hasher: int -> nat,
                    key: int, t: nat)
    requires Linked(hash, index, keys, depth, hasher)
    requires t < |hash|
    requires hash[Place(|hash|, hasher, key, t)] < 2 && NoEmptyBefore(hash, hasher, key, t)
    ensures var s := Place(|hash|, hasher, key, t);
            Linked(hash[s := StoredHash(hasher(key))], index[s := |keys|], keys + [key], depth + [t], hasher)
  {
    hide Place, ReachedAt;
    var i := |keys|;
    AppendKey(hash, index, keys, depth, hasher, AllIndices(i), key);
    StoreLinks(hash, index, keys + [key], depth + [0], hasher, AllIndices(i), i, t);
    assert (depth + [0])[i := t] == depth + [t];
    assert AllIndices(i) + {i} == AllIndices(i + 1);
  }

  /** Overwriting a key that no slot refers to. */
  lemma ChangeUnlinked(hash: seq<int>, index: seq<int>, keys: seq<int>, depth: seq<nat>, hasher: int -> nat,
                       done: set<int>, i: nat, key: int)
    requires LinkedFor(hash, index, keys, depth, hasher, done) && i < |keys| && i !in done
    ensures LinkedFor(hash, index, keys[i := key], depth, hasher, done)
  {
    forall j | j in done
      ensures 0 <= j < |keys| && ReachedAt(hash, index, hasher, keys[i := key][j], depth[j], j)
    {
      assert ReachedAt(hash, index, hasher, keys[j], depth[j], j);
    }
  }

  /** State in the middle of a deletion: entry i has lost its slot, and the last entry
      has been copied over it but is still linked at its old position. */
  ghost predicate HalfDeleted(hash: seq<int>, index: seq<int>, keys: seq<int>, depth: seq<nat>, hasher: int -> nat,
                              i: nat)
  {
    && i < |keys|
    && LinkedFor(hash, index, keys, depth, hasher, AllIndices(|keys|) - {i})
  }

  lemma DeleteStarts(hash: seq<int>, index: seq<int>, keys: seq<int>, depth: seq<nat>, hasher: int -> nat, s: nat)
    requires Linked(hash, index, keys, depth, hasher) && s < |hash| && hash[s] >= 2
    ensures 0 <= index[s] < |keys| == |depth|
    ensures HalfDeleted(hash[s := HASH_DELETED], index[s := INDEX_DELETED], keys, depth, hasher, index[s])
  {
    TombstoneUnlinks(hash, index, keys, depth, hasher, AllIndices(|keys|), s);
  }

  /** The lookup of the last key during a deletion cannot miss, and finds the last entry
      although its key now stands in two places. */
  lemma SecondLookup(hash: seq<int>, index: seq<int>, keys: seq<int>, depth: seq<nat>, hasher: int -> nat, i: nat)
    requires HalfDeleted(hash, index, keys, depth, hasher, i) && DistinctKeys(keys) && i < |keys| - 1
    ensures var last := keys[|keys| - 1]; var keys' := keys[i := last];
            && SlotsOk(hash, index, keys', hasher)
            && (forall t: nat :: !MissedAt(hash, index, keys', StoredHash(hasher(last)), last, Home(|hash|, hasher, last), t))
            && (forall s :: Matches(hash, index, keys', StoredHash(hasher(last)), last, s) ==> index[s] == |keys| - 1)
  {
    var last := keys[|keys| - 1];
    var keys' := keys[i := last];
    var done := AllIndices(|keys|) - {i};
    ChangeUnlinked(hash, index, keys, depth, hasher, done, i, last);
    assert ReachedAt(hash, index, hasher, keys[|keys| - 1], depth[|keys| - 1], |keys| - 1);
    forall t: nat
      ensures !MissedAt(hash, index, keys', StoredHash(hasher(last)), last, Home(|hash|, hasher, last), t)
    {
      ReachedIsNotMissed(hash, index, keys', hasher, depth[|keys| - 1], |keys| - 1, t);
    }
  }

  lemma DeleteEnds(hash: seq<int>, index: seq<int>, keys: seq<int>, depth: seq<nat>, hasher: int -> nat, i: nat, s: nat)
    requires HalfDeleted(hash, index, keys, depth, hasher, i) && i < |keys| - 1
    requires s < |hash| && index[s] == |keys| - 1
    ensures var last := |keys| - 1;
            Linked(hash, index[s := i], keys[i := keys[last]][..last], depth[i := depth[last]][..last], hasher)
  {
    MoveLast(hash, index, keys, depth, hasher, AllIndices(|keys|) - {i}, i, s);
    assert AllIndices(|keys|) - {i} - {|keys| - 1} + {i} == AllIndices(|keys| - 1);
  }

  lemma DeleteEndsAtLast(hash: seq<int>, index: seq<int>, keys: seq<int>, depth: seq<nat>, hasher: int -> nat)
    requires |keys| > 0 && HalfDeleted(hash, index, keys, depth, hasher, |keys| - 1)
    ensures Linked(hash, index, keys[..|keys| - 1], depth[..|keys| - 1], hasher)
  {
    DropLast(hash, index, keys, depth, hasher, AllIndices(|keys|) - {|keys| - 1});
    assert AllIndices(|keys|) - {|keys| - 1} == AllIndices(|keys| - 1);
  }

  // ---------------------------------------------------------------------
  // Counting

  lemma {:induction false} TwoValues(s: seq<int>)
    ensures multiset(s)[HASH_EMPTY] + multiset(s)[HASH_DELETED] <= |s|
  {
    if s != [] {
      assert s == [s[0]] + s[1..];
      TwoValues(s[1..]);
    }
  }

  /** Number of live slots among the first n. */
  ghost function LiveIn(hash: seq<int>, n: nat): int
    requires n <= |hash|
  {
    n - multiset(hash[..n])[HASH_EMPTY] - multiset(hash[..n])[HASH_DELETED]
  }

  lemma LiveNext(hash: seq<int>, n: nat)
    requires n < |hash|
    ensures LiveIn(hash, n + 1) == LiveIn(hash, n) + (if hash[n] == HASH_EMPTY || hash[n] == HASH_DELETED then 0 else 1)
  {
    assert hash[..n + 1] == hash[..n] + [hash[n]];
  }

  lemma LiveBelowTotal(hash: seq<int>, used: nat, tombstones: nat, n: nat)
    requires n <= |hash| && CountersOk(hash, used, tombstones)
    ensures 0 <= LiveIn(hash, n) <= used
    ensures n == |hash| ==> LiveIn(hash, n) == used
  {
    assert hash == hash[..n] + hash[n..];
    TwoValues(hash[n..]);
    TwoValues(hash[..n]);
    assert n == |hash| ==> hash[..n] == hash;
  }

  lemma {:induction false} AllEmptyCount(hash: seq<int>)
    requires forall s :: 0 <= s < |hash| ==> hash[s] == HASH_EMPTY
    ensures multiset(hash)[HASH_EMPTY] == |hash| && multiset(hash)[HASH_DELETED] == 0
  {
    if hash != [] {
      assert hash == [hash[0]] + hash[1..];
      AllEmptyCount(hash[1..]);
    }
  }

  /** A fresh table links nothing. */
  lemma EmptyLinks(hash: seq<int>, index: seq<int>, keys: seq<int>, depth: seq<nat>, hasher: int -> nat)
    requires |hash| == |index| && |hash| >= 8 && IsTableSize(|hash|) && |depth| == |keys|
    requires forall s :: 0 <= s < |hash| ==> hash[s] == HASH_EMPTY && index[s] == INDEX_EMPTY
    ensures LinkedFor(hash, index, keys, depth, hasher, {})
    ensures CountersOk(hash, 0, 0)
  {
    AllEmptyCount(hash);
  }

  /** Writing a live hash over an empty slot or a tombstone. */
  lemma CountStore(hash: seq<int>, s: nat, h: int, used: nat, tombstones: nat)
    requires s < |hash| && 0 <= hash[s] < 2 && h >= 2 && CountersOk(hash, used, tombstones)
    ensures hash[s] == HASH_DELETED ==> tombstones > 0
    ensures CountersOk(hash[s := h], used + 1, if hash[s] == HASH_DELETED then tombstones - 1 else tombstones)
  {
    MultisetUpdate(hash, s, h);
    assert hash[s] in multiset(hash);
  }

  lemma CountDelete(hash: seq<int>, s: nat, used: nat, tombstones: nat)
    requires s < |hash| && hash[s] >= 2 && CountersOk(hash, used, tombstones)
    ensures used > 0
    ensures CountersOk(hash[s := HASH_DELETED], used - 1, tombstones + 1)
  {
    MultisetUpdate(hash, s, HASH_DELETED);
    LiveNext(hash, s);
    LiveBelowTotal(hash, used, tombstones, s);
    LiveBelowTotal(hash, used, tombstones, s + 1);
  }

  // ---------------------------------------------------------------------
  // Rebuilding into another table

  /** State of a rebuild that has looked at the first s old slots: exactly the entries
      of their live slots are linked in the new table. */
  ghost predicate Rebuilding(oldHash: seq<int>, oldIndex: seq<int>, oldDepth: seq<nat>,
                             hash: seq<int>, index: seq<int>, depth: seq<nat>,
                             keys: seq<int>, hasher: int -> nat, done: set<int>, s: nat)
    requires Linked(oldHash, oldIndex, keys, oldDepth, hasher) && s <= |oldHash|
  {
    && LinkedFor(hash, index, keys, depth, hasher, done)
    && (forall q :: 0 <= q < s && oldHash[q] >= 2 ==> oldIndex[q] in done)
    && (forall i :: i in done ==> Place(|oldHash|, hasher, keys[i], oldDepth[i]) < s)
    && LiveIn(oldHash, s) >= 0
    && CountersOk(hash, LiveIn(oldHash, s), 0)
  }

  lemma RebuildStarts(oldHash: seq<int>, oldIndex: seq<int>, oldDepth: seq<nat>, hash: seq<int>, index: seq<int>,
                      keys: seq<int>, hasher: int -> nat)
    requires Linked(oldHash, oldIndex, keys, oldDepth, hasher)
    requires |hash| == |index| && |hash| >= 8 && IsTableSize(|hash|)
    requires forall s :: 0 <= s < |hash| ==> hash[s] == HASH_EMPTY && index[s] == INDEX_EMPTY
    ensures Rebuilding(oldHash, oldIndex, oldDepth, hash, index, oldDepth, keys, hasher, {}, 0)
  {
    EmptyLinks(hash, index, keys, oldDepth, hasher);
  }

  /** A live old slot still to be moved leaves room in the new table. */
  lemma RebuildRoom(oldHash: seq<int>, oldIndex: seq<int>, oldDepth: seq<nat>,
                    hash: seq<int>, index: seq<int>, depth: seq<nat>,
                    keys: seq<int>, hasher: int -> nat, done: set<int>, s: nat, used: nat, tombstones: nat)
    requires Linked(oldHash, oldIndex, keys, oldDepth, hasher) && s < |oldHash| && oldIndex[s] >= 0
    requires CountersOk(oldHash, used, tombstones)
    requires Rebuilding(oldHash, oldIndex, oldDepth, hash, index, depth, keys, hasher, done, s)
    ensures 0 <= LiveIn(oldHash, s) < used
    ensures SameLength(hash, index) && CountersOk(hash, LiveIn(oldHash, s), 0)
    ensures 2 <= oldHash[s] && oldIndex[s] < |keys| == |depth|
  {
    LiveNext(oldHash, s);
    LiveBelowTotal(oldHash, used, tombstones, s + 1);
  }

  lemma RebuildSkips(oldHash: seq<int>, oldIndex: seq<int>, oldDepth: seq<nat>,
                     hash: seq<int>, index: seq<int>, depth: seq<nat>,
                     keys: seq<int>, hasher: int -> nat, done: set<int>, s: nat)
    requires Linked(oldHash, oldIndex, keys, oldDepth, hasher) && s < |oldHash| && oldIndex[s] < 0
    requires Rebuilding(oldHash, oldIndex, oldDepth, hash, index, depth, keys, hasher, done, s)
    ensures Rebuilding(oldHash, oldIndex, oldDepth, hash, index, depth, keys, hasher, done, s + 1)
  {
    LiveNext(oldHash, s);
  }

  lemma RebuildMoves(oldHash: seq<int>, oldIndex: seq<int>, oldDepth: seq<nat>,
                     hash: seq<int>, index: seq<int>, depth: seq<nat>,
                     keys: seq<int>, hasher: int -> nat, done: set<int>, s: nat, slot: nat, t: nat)
    requires Linked(oldHash, oldIndex, keys, oldDepth, hasher) && s < |oldHash| && oldIndex[s] >= 0
    requires Rebuilding(oldHash, oldIndex, oldDepth, hash, index, depth, keys, hasher, done, s)
    requires t < |hash| && slot == Probe(oldHash[s] % |hash|, |hash|, t) && hash[slot] == HASH_EMPTY
    requires forall u: nat :: u < t ==> hash[Probe(oldHash[s] % |hash|, |hash|, u)] != HASH_EMPTY
    ensures oldIndex[s] < |keys|
    ensures Rebuilding(oldHash, oldIndex, oldDepth, hash[slot := oldHash[s]], index[slot := oldIndex[s]],
                       depth[oldIndex[s] := t], keys, hasher, done + {oldIndex[s]}, s + 1)
  {
    var i := oldIndex[s];
    assert i !in done;
    forall u: nat | u < t
      ensures hash[Place(|hash|, hasher, keys[i], u)] != HASH_EMPTY
    {
    }
    StoreLinks(hash, index, keys, depth, hasher, done, i, t);
    CountStore(hash, slot, oldHash[s], LiveIn(oldHash, s), 0);
    LiveNext(oldHash, s);
  }

  lemma RebuildEnds(oldHash: seq<int>, oldIndex: seq<int>, oldDepth: seq<nat>,
                    hash: seq<int>, index: seq<int>, depth: seq<nat>,
                    keys: seq<int>, hasher: int -> nat, done: set<int>, used: nat, tombstones: nat)
    requires Linked(oldHash, oldIndex, keys, oldDepth, hasher) && CountersOk(oldHash, used, tombstones)
    requires Rebuilding(oldHash, oldIndex, oldDepth, hash, index, depth, keys, hasher, done, |oldHash|)
    ensures Linked(hash, index, keys, depth, hasher) && CountersOk(hash, used, 0)
  {
    LiveBelowTotal(oldHash, used, tombstones, |oldHash|);
    forall i | 0 <= i < |keys|
      ensures i in done
    {
      assert ReachedAt(oldHash, oldIndex, hasher, keys[i], oldDepth[i], i);
    }
    assert done == AllIndices(|keys|);
  }
}
