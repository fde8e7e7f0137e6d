/** The slot table itself: two parallel arrays that are probed and written in place.

    All three probe loops of include/stb_ds.h walk a bucket in two halves and then
    step to another bucket; they are `ScanBucket` and `ScanFreeInBucket` below,
    and the two unbounded loops around them are shown to end. */
module SlotTable {
  import opened ProbeSequence
  import opened HashIndex
  import opened EntryArray

  /** No slot has this hash; a search for it passes every slot that is not empty. */
  const NO_HASH: int := -1

  datatype ScanResult = Hit(slot: nat) | Empty(slot: nat) | Exhausted

  /** The slot table: two parallel arrays of fixed size and two counters. */
  class SlotTable {
    const hash: array<int>
    const index: array<int>
    var usedCount: nat
    var tombstoneCount: nat

    /** A table with all slots empty. */
    constructor (slotCount: nat)
      requires slotCount >= 8
      ensures fresh(hash) && fresh(index) && hash != index
      ensures hash.Length == index.Length == slotCount
      ensures usedCount == 0 && tombstoneCount == 0
      ensures forall s :: 0 <= s < slotCount ==> hash[s] == HASH_EMPTY && index[s] == INDEX_EMPTY
    {
      hash := new int[slotCount](_ => HASH_EMPTY);
      index := new int[slotCount](_ => INDEX_EMPTY);
      usedCount, tombstoneCount := 0, 0;
    }

    /** Shape of a table that a lookup can run on. */
    ghost predicate Probeable(keys: seq<int>, hasher: int -> nat)
      reads this, hash, index
    {
      && hash != index
      && SameLength(hash[..], index[..])
      && SlotsOk(hash[..], index[..], keys, hasher)
      && CountersOk(hash[..], usedCount, tombstoneCount)
      && usedCount + tombstoneCount < hash.Length
    }

    /** Searches slots lo .. hi of one bucket, remembering the first tombstone met. */
    method Scan<V>(entries: seq<Entry<V>>, hasher: int -> nat, h: int, key: int, lo: nat, hi: nat, seen: int)
      returns (r: ScanResult, tombstone: int)
      requires Probeable(Keys(entries), hasher) && h >= 2 && lo <= hi <= hash.Length && seen >= -1
      ensures r.Hit? ==> Matches(hash[..], index[..], Keys(entries), h, key, r.slot)
      ensures r.Empty? ==> lo <= r.slot < hi && hash[r.slot] == HASH_EMPTY
      ensures !r.Hit? ==>
                PassedSlots(hash[..], index[..], Keys(entries), h, key, lo, if r.Empty? then r.slot else hi)
      ensures tombstone == seen || (lo <= tombstone < (if r.Empty? then r.slot else hi) && hash[tombstone] == HASH_DELETED)
    {
      var s := lo;
      tombstone := seen;
      while s < hi
        invariant lo <= s <= hi
        invariant PassedSlots(hash[..], index[..], Keys(entries), h, key, lo, s)
        invariant tombstone == seen || (lo <= tombstone < s && hash[tombstone] == HASH_DELETED)
      {
        if hash[s] == h {
          if entries[index[s]].key == key {
            return Hit(s), tombstone;
          }
        } else if hash[s] == HASH_EMPTY {
          return Empty(s), tombstone;
        } else if tombstone < 0 {
          if index[s] == INDEX_DELETED {
            tombstone := s;
          }
        }
        s := s + 1;
      }
      return Exhausted, tombstone;
    }

    /** Searches one bucket: from the start position to its end, then from its beginning. */
    method ScanBucket<V>(entries: seq<Entry<V>>, hasher: int -> nat, h: int, key: int, pos: nat, seen: int,
                         ghost p0: nat, ghost round: nat)
      returns (r: ScanResult, tombstone: int, ghost t: nat)
      requires Probeable(Keys(entries), hasher) && h >= 2 && seen >= -1 && hash.Length % 8 == 0
      requires pos == 8 * BucketAt(p0, hash.Length, round) + p0 % 8
      requires PassedUpTo(hash[..], index[..], Keys(entries), h, key, p0, 8 * round)
      requires TombstoneSeen(hash[..], p0, seen, 8 * round)
      ensures r.Hit? ==> Matches(hash[..], index[..], Keys(entries), h, key, r.slot)
      ensures r.Empty? ==> r.slot == Probe(p0, hash.Length, t) && MissedAt(hash[..], index[..], Keys(entries), h, key, p0, t)
      ensures r.Exhausted? ==> t == 8 * (round + 1) && PassedUpTo(hash[..], index[..], Keys(entries), h, key, p0, t)
      ensures tombstone >= -1
      ensures !r.Hit? ==> TombstoneSeen(hash[..], p0, tombstone, t)
    {
      hide PassedUpTo, TombstoneSeen, BucketAt, Probe;
      ghost var hs, ix, keys := hash[..], index[..], Keys(entries);
      BucketFits(p0, hash.Length, round, pos);
      var offset := pos % 8;
      var base := pos - offset;
      t := 0;
      r, tombstone := Scan(entries, hasher, h, key, base + offset, base + BUCKET_LENGTH, seen);
      if r.Hit? {
        return;
      }
      ghost var hi := if r.Empty? then r.slot - base else 8;
      UpperStep(hs, ix, keys, h, key, p0, round, base, hi, seen, tombstone);
      t := 8 * round + (hi - offset);
      if r.Empty? {
        return;
      }
      var first := tombstone;
      r, tombstone := Scan(entries, hasher, h, key, base, base + offset, first);
      if r.Hit? {
        return;
      }
      hi := if r.Empty? then r.slot - base else offset;
      LowerStep(hs, ix, keys, h, key, p0, round, base, hi, first, tombstone);
      t := 8 * round + (8 - offset) + hi;
    }

    /** Runs a lookup to its end.  The loop stops because a slot is empty and every slot is visited. */
    method Lookup<V>(entries: seq<Entry<V>>, hasher: int -> nat, key: int)
      returns (r: ScanResult, tombstone: int, ghost t: nat)
      requires Probeable(Keys(entries), hasher)
      ensures !r.Exhausted? && tombstone >= -1
      ensures r.Hit? ==> Matches(hash[..], index[..], Keys(entries), StoredHash(hasher(key)), key, r.slot)
      ensures r.Empty? ==>
                && t < hash.Length && r.slot == Place(hash.Length, hasher, key, t)
                && MissedAt(hash[..], index[..], Keys(entries), StoredHash(hasher(key)), key, Home(hash.Length, hasher, key), t)
                && TombstoneSeen(hash[..], Home(hash.Length, hasher, key), tombstone, t)
    {
      hide PassedUpTo, MissedAt, TombstoneSeen, BucketAt, Probe, SlotsOk, CountersOk, Matches, Keys;
      var n := hash.Length;
      var h := StoredHash(hasher(key));
      TableSizeFacts(n);
      var pos, step := h % n, BUCKET_LENGTH;
      ghost var p0, round := pos, 0;
      FirstRound(p0, n);
      ghost var end := EmptySlotAhead(hash[..], usedCount, tombstoneCount, p0);
      r, tombstone, t := Exhausted, -1, 0;
      LookupStarts(hash[..], index[..], Keys(entries), h, key, p0);
      while true
        invariant pos < n && pos == 8 * BucketAt(p0, n, round) + p0 % 8
        invariant step == 8 * (round + 1)
        invariant PassedUpTo(hash[..], index[..], Keys(entries), h, key, p0, 8 * round)
        invariant tombstone >= -1 && TombstoneSeen(hash[..], p0, tombstone, 8 * round)
        invariant 8 * round <= end
        decreases end - 8 * round
      {
        r, tombstone, t := ScanBucket(entries, hasher, h, key, pos, tombstone, p0, round);
        if !r.Exhausted? {
          if r.Empty? {
            MissStops(hash[..], index[..], Keys(entries), h, key, p0, t, end);
          }
          return;
        }
        EmptySlotStops(hash[..], index[..], Keys(entries), h, key, p0, t, end);
        NextRound(p0, n, round, pos);
        pos := pos + step;
        step := step + BUCKET_LENGTH;
        pos := pos % n;
        round := round + 1;
      }
    }

    /** First empty slot among lo .. hi. */
    method ScanFree(lo: nat, hi: nat) returns (r: ScanResult)
      requires hash.Length == index.Length && lo <= hi <= hash.Length
      ensures !r.Hit?
      ensures r.Empty? ==> lo <= r.slot < hi && hash[r.slot] == HASH_EMPTY
      ensures PassedSlots(hash[..], index[..], [], NO_HASH, 0, lo, if r.Empty? then r.slot else hi)
    {
      var s := lo;
      while s < hi
        invariant lo <= s <= hi
        invariant PassedSlots(hash[..], index[..], [], NO_HASH, 0, lo, s)
      {
        if hash[s] == HASH_EMPTY {
          return Empty(s);
        }
        s := s + 1;
      }
      return Exhausted;
    }

    /** First empty slot on the probe path that starts at p0. */
    method FreeSlot(p0: nat, ghost used: nat) returns (slot: nat, ghost t: nat)
      requires hash != index && SameLength(hash[..], index[..]) && p0 < hash.Length
      requires CountersOk(hash[..], used, 0) && used < hash.Length
      ensures t < hash.Length && slot == Probe(p0, hash.Length, t) && hash[slot] == HASH_EMPTY
      ensures forall u: nat :: u < t ==> hash[..][Probe(p0, hash.Length, u)] != HASH_EMPTY
    {
      hide PassedUpTo, BucketAt, Probe;
      var n := hash.Length;
      ghost var hs, ix := hash[..], index[..];
      TableSizeFacts(n);
      var pos, step := p0, BUCKET_LENGTH;
      ghost var round := 0;
      FirstRound(p0, n);
      ghost var end := EmptySlotAhead(hs, used, 0, p0);
      LookupStarts(hs, ix, [], NO_HASH, 0, p0);
      while true
        invariant pos < n && pos == 8 * BucketAt(p0, n, round) + p0 % 8
        invariant step == 8 * (round + 1)
        invariant PassedUpTo(hs, ix, [], NO_HASH, 0, p0, 8 * round)
        invariant 8 * round <= end
        decreases end - 8 * round
      {
        var r;
        r, t := ScanFreeInBucket(pos, p0, round);
        EmptySlotStops(hs, ix, [], NO_HASH, 0, p0, t, end);
        if r.Empty? {
          AllPassedNoHash(hs, ix, p0, t);
          return r.slot, t;
        }
        NextRound(p0, n, round, pos);
        pos := pos + step;
        step := step + BUCKET_LENGTH;
        pos := pos % n;
        round := round + 1;
      }
    }

    method ScanFreeInBucket(pos: nat, ghost p0: nat, ghost round: nat) returns (r: ScanResult, ghost t: nat)
      requires hash != index && SameLength(hash[..], index[..]) && hash.Length % 8 == 0
      requires pos == 8 * BucketAt(p0, hash.Length, round) + p0 % 8
      requires PassedUpTo(hash[..], index[..], [], NO_HASH, 0, p0, 8 * round)
      ensures !r.Hit?
      ensures r.Empty? ==> r.slot == Probe(p0, hash.Length, t) && hash[r.slot] == HASH_EMPTY
      ensures r.Exhausted? ==> t == 8 * (round + 1)
      ensures PassedUpTo(hash[..], index[..], [], NO_HASH, 0, p0, t)
    {
      hide PassedUpTo, BucketAt, Probe;
      ghost var hs, ix := hash[..], index[..];
      BucketFits(p0, hash.Length, round, pos);
      var offset := pos % 8;
      var base := pos - offset;
      r := ScanFree(base + offset, base + BUCKET_LENGTH);
      ghost var hi := if r.Empty? then r.slot - base else 8;
      UpperStep(hs, ix, [], NO_HASH, 0, p0, round, base, hi, -1, -1);
      t := 8 * round + (hi - offset);
      if r.Empty? {
        return;
      }
      r := ScanFree(base, base + offset);
      hi := if r.Empty? then r.slot - base else offset;
      LowerStep(hs, ix, [], NO_HASH, 0, p0, round, base, hi, -1, -1);
      t := 8 * round + (8 - offset) + hi;
    }
  }

  /** A table of `slotCount` slots with every live slot of `old` moved into it by its stored hash. */
  method Rebuild(slotCount: nat, source: SlotTable, ghost keys: seq<int>, ghost depth: seq<nat>, ghost hasher: int -> nat)
    returns (t: SlotTable, ghost newDepth: seq<nat>)
    requires source.hash != source.index && source.hash.Length == source.index.Length
    requires Linked(source.hash[..], source.index[..], keys, depth, hasher)
    requires CountersOk(source.hash[..], source.usedCount, source.tombstoneCount)
    requires slotCount >= 8 && IsTableSize(slotCount) && source.usedCount < slotCount
    ensures fresh(t) && fresh(t.hash) && fresh(t.index) && t.hash != t.index
    ensures t.hash.Length == t.index.Length == slotCount
    ensures Linked(t.hash[..], t.index[..], keys, newDepth, hasher)
    ensures t.usedCount == source.usedCount && t.tombstoneCount == 0
    ensures CountersOk(t.hash[..], t.usedCount, 0)
  {
    hide LinkedFor, CountersOk, Rebuilding, Probe, ReachedAt, LiveIn;
    t := new SlotTable(slotCount);
    t.usedCount := source.usedCount;
    newDepth := depth;
    ghost var oh, oi := source.hash[..], source.index[..];
    ghost var done: set<int> := {};
    RebuildStarts(oh, oi, depth, t.hash[..], t.index[..], keys, hasher);
    var s := 0;
    while s < source.hash.Length
      invariant s <= source.hash.Length && source.hash[..] == oh && source.index[..] == oi
      invariant fresh(t.hash) && fresh(t.index) && t.hash != t.index && t.hash.Length == t.index.Length == slotCount
      invariant t.usedCount == source.usedCount && t.tombstoneCount == 0
      invariant Rebuilding(oh, oi, depth, t.hash[..], t.index[..], newDepth, keys, hasher, done, s)
    {
      if source.index[s] >= 0 {
        var h := source.hash[s];
        var slot;
        ghost var time;
        RebuildRoom(oh, oi, depth, t.hash[..], t.index[..], newDepth, keys, hasher, done, s, source.usedCount, source.tombstoneCount);
        slot, time := t.FreeSlot(h % slotCount, LiveIn(oh, s));
        RebuildMoves(oh, oi, depth, t.hash[..], t.index[..], newDepth, keys, hasher, done, s, slot, time);
        t.hash[slot] := h;
        t.index[slot] := source.index[s];
        newDepth := newDepth[oi[s] := time];
        done := done + {oi[s]};
      } else {
        RebuildSkips(oh, oi, depth, t.hash[..], t.index[..], newDepth, keys, hasher, done, s);
      }
      s := s + 1;
    }
    RebuildEnds(oh, oi, depth, t.hash[..], t.index[..], newDepth, keys, hasher, done, source.usedCount, source.tombstoneCount);
  }
}
