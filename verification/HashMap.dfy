/** The integer-keyed maps of the proxy: an optional slot table and a dense entry array.

    Every method is proved against `Contents(entries)`, the finite map the entry
    array stands for; `Valid` is what each of them keeps. */
module HashMap {
  import opened ProbeSequence
  import opened HashIndex
  import opened EntryArray
  import opened SlotTable

  class HashMap<V> {
    const hasher: int -> nat
    var table: SlotTable?
    var entries: seq<Entry<V>>
    var defaultValue: V
    ghost var depth: seq<nat>

    ghost function Repr(): set<object>
      reads this
    {
      if table == null then {this} else {this, table, table.hash, table.index}
    }

    /** The table links exactly the entries, its counters are exact, and both are below
        the thresholds that keep at least one slot empty. */
    ghost predicate TableValid(t: SlotTable)
      reads this, t, t.hash, t.index
    {
      && t.hash != t.index && t.hash.Length == t.index.Length && t.hash.Length >= 8 && IsTableSize(t.hash.Length)
      && Linked(t.hash[..], t.index[..], Keys(entries), depth, hasher)
      && CountersOk(t.hash[..], t.usedCount, t.tombstoneCount)
      && t.usedCount == |entries|
      && t.usedCount <= UsedThreshold(t.hash.Length)
      && t.tombstoneCount <= TombstoneThreshold(t.hash.Length)
    }

    /** `Valid`, except that a deletion may have left one tombstone too many. */
    ghost predicate AfterSwapOut()
      reads this, Repr()
    {
      && DistinctKeys(Keys(entries))
      && table != null
      && table.hash != table.index && table.hash.Length == table.index.Length && table.hash.Length >= 8 && IsTableSize(table.hash.Length)
      && Linked(table.hash[..], table.index[..], Keys(entries), depth, hasher)
      && CountersOk(table.hash[..], table.usedCount, table.tombstoneCount)
      && table.usedCount == |entries| < UsedThreshold(table.hash.Length)
    }

    ghost predicate Valid()
      reads this, Repr()
    {
      && DistinctKeys(Keys(entries))
      && (table == null ==> entries == [])
      && (table != null ==> TableValid(table))
    }

    constructor (hasher: int -> nat, defaultValue: V)
      ensures Valid() && fresh(Repr())
      ensures entries == [] && this.defaultValue == defaultValue && this.hasher == hasher
    {
      this.hasher := hasher;
      this.defaultValue := defaultValue;
      table, entries, depth := null, [], [];
    }

    lemma ReadyForLookup()
      requires Valid() && table != null
      ensures table.Probeable(Keys(entries), hasher)
    {
      TableSizeFacts(table.hash.Length);
      ThresholdsLeaveRoom(table.hash.Length);
    }

    /** Index of the entry with this key, or -1. */
    method GetIndex(key: int) returns (i: int)
      requires Valid()
      ensures -1 <= i < |entries|
      ensures i >= 0 ==> entries[i].key == key
      ensures i < 0 <==> key !in Contents(entries)
    {
      hide LinkedFor, CountersOk, MissedAt, TombstoneSeen, Place, SlotsOk;
      if table == null {
        return -1;
      }
      ReadyForLookup();
      var r, tombstone, t := table.Lookup(entries, hasher, key);
      if r.Hit? {
        i := table.index[r.slot];
        ContentsAt(entries, i);
      } else {
        ghost var _ := MissGivesSlot(table.hash[..], table.index[..], Keys(entries), depth, hasher, key, r.slot, tombstone, t);
        i := -1;
      }
    }

    method Get(key: int) returns (v: V)
      requires Valid()
      ensures v == if key in Contents(entries) then Contents(entries)[key] else defaultValue
    {
      var i := GetIndex(key);
      if i < 0 {
        v := defaultValue;
      } else {
        ContentsAt(entries, i);
        v := entries[i].value;
      }
    }

    /** Makes room for one more entry: the first table has eight slots, a full one doubles. */
    method Grow()
      requires Valid()
      modifies `table, `depth
      ensures Valid() && fresh(Repr() - old(Repr()))
      ensures table != null && table.usedCount < UsedThreshold(table.hash.Length)
      ensures table != null && |entries| == table.usedCount
    {
      if table == null {
        SmallestTable();
        var t := new SlotTable(BUCKET_LENGTH);
        depth := [];
        EmptyLinks(t.hash[..], t.index[..], [], [], hasher);
        assert AllIndices(0) == {};
        assert Keys(entries) == [];
        table := t;
      } else if table.usedCount >= UsedThreshold(table.hash.Length) {
        TableSizeFacts(table.hash.Length);
        var t, d := Rebuild(2 * table.hash.Length, table, Keys(entries), depth, hasher);
        table, depth := t, d;
      }
    }

    /** Appends an entry and stores it in a free slot on the probe path of its key. */
    method Append(key: int, value: V, slot: nat, ghost t: nat)
      requires Valid() && table != null && table.usedCount < UsedThreshold(table.hash.Length)
      requires key !in Keys(entries)
      requires t < table.hash.Length && slot == Place(table.hash.Length, hasher, key, t)
      requires 0 <= table.hash[slot] < 2
      requires NoEmptyBefore(table.hash[..], hasher, key, t)
      modifies `entries, `depth, table, table.hash, table.index
      ensures Valid() && table == old(table)
      ensures entries == old(entries) + [Entry(key, value)]
    {
      hide LinkedFor, CountersOk, Place, NoEmptyBefore, Contents;
      InsertLinks(table.hash[..], table.index[..], Keys(entries), depth, hasher, key, t);
      CountStore(table.hash[..], slot, StoredHash(hasher(key)), table.usedCount, table.tombstoneCount);
      ContentsAppend(entries, Entry(key, value));
      if table.hash[slot] == HASH_DELETED {
        table.tombstoneCount := table.tombstoneCount - 1;
      }
      table.usedCount := table.usedCount + 1;
      table.hash[slot] := StoredHash(hasher(key));
      table.index[slot] := |entries|;
      entries := entries + [Entry(key, value)];
      depth := depth + [t];
    }

    method Put(key: int, value: V)
      requires Valid()
      modifies Repr()
      ensures Valid() && fresh(Repr() - old(Repr()))
      ensures defaultValue == old(defaultValue)
      ensures Contents(entries) == old(Contents(entries))[key := value]
      ensures key in old(Keys(entries)) ==>
                entries == old(entries)[PositionOf(old(Keys(entries)), key) := Entry(key, value)]
      ensures key !in old(Keys(entries)) ==> entries == old(entries) + [Entry(key, value)]
    {
      hide LinkedFor, CountersOk, MissedAt, TombstoneSeen, Place, SlotsOk, NoEmptyBefore, Contents;
      Grow();
      ReadyForLookup();
      var r, tombstone, t := table.Lookup(entries, hasher, key);
      if r.Hit? {
        var i := table.index[r.slot];
        ContentsOverwrite(entries, i, value);
        assert Keys(entries)[i] == key;
        entries := entries[i := Entry(key, value)];
      } else {
        ghost var u := MissGivesSlot(table.hash[..], table.index[..], Keys(entries), depth, hasher, key, r.slot, tombstone, t);
        ContentsAppend(entries, Entry(key, value));
        Append(key, value, if tombstone >= 0 then tombstone else r.slot, u);
      }
    }

    /** Moves the last entry into the hole i and points the last entry's slot at i. */
    method FillHole(t: SlotTable, i: nat)
      requires DistinctKeys(Keys(entries)) && i < |entries| - 1 && |depth| == |entries|
      requires t.hash != t.index && t.hash.Length == t.index.Length && t.hash.Length >= 8 && IsTableSize(t.hash.Length)
      requires HalfDeleted(t.hash[..], t.index[..], Keys(entries), depth, hasher, i)
      requires CountersOk(t.hash[..], t.usedCount, t.tombstoneCount)
      requires t.usedCount + t.tombstoneCount < t.hash.Length
      modifies `entries, `depth, t.index
      ensures entries == SwapDelete(old(entries), i)
      ensures Linked(t.hash[..], t.index[..], Keys(entries), depth, hasher)
    {
      hide LinkedFor, CountersOk, HalfDeleted, MissedAt, TombstoneSeen, Place, SlotsOk, Contents, Home;
      var last := |entries| - 1;
      ghost var keys := Keys(entries);
      SecondLookup(t.hash[..], t.index[..], keys, depth, hasher, i);
      entries := entries[i := entries[last]];
      assert Keys(entries) == keys[i := keys[last]];
      var r, _, _ := t.Lookup(entries, hasher, entries[i].key);
      DeleteEnds(t.hash[..], t.index[..], keys, depth, hasher, i, r.slot);
      t.index[r.slot] := i;
      entries := entries[..last];
      depth := depth[i := depth[last]][..last];
      assert Keys(entries) == keys[i := keys[last]][..last];
    }

    /** Turns a live slot into a tombstone. */
    method Bury(slot: nat) returns (i: nat)
      requires Valid() && table != null && slot < table.hash.Length && table.hash[slot] >= 2
      modifies table, table.hash, table.index
      ensures i == old(table.index[slot]) && i < |entries| == |depth|
      ensures HalfDeleted(table.hash[..], table.index[..], Keys(entries), depth, hasher, i)
      ensures CountersOk(table.hash[..], table.usedCount, table.tombstoneCount)
      ensures table.usedCount == |entries| - 1 < UsedThreshold(table.hash.Length)
      ensures IsTableSize(table.hash.Length) && table.usedCount + table.tombstoneCount < table.hash.Length
    {
      hide LinkedFor, CountersOk, HalfDeleted;
      ReadyForLookup();
      DeleteStarts(table.hash[..], table.index[..], Keys(entries), depth, hasher, slot);
      CountDelete(table.hash[..], slot, table.usedCount, table.tombstoneCount);
      i := table.index[slot];
      table.usedCount := table.usedCount - 1;
      table.tombstoneCount := table.tombstoneCount + 1;
      table.hash[slot] := HASH_DELETED;
      table.index[slot] := INDEX_DELETED;
    }

    /** Removes the entry whose slot was found, moving the last entry into its place. */
    method SwapOut(slot: nat)
      requires Valid() && table != null && slot < table.hash.Length && table.hash[slot] >= 2
      requires 0 <= table.index[slot] < |entries|
      modifies `entries, `depth, table, table.hash, table.index
      ensures table == old(table) && AfterSwapOut()
      ensures entries == SwapDelete(old(entries), old(table.index[slot]))
    {
      hide LinkedFor, CountersOk, HalfDeleted, Contents, UsedThreshold;
      var finalIndex := |entries| - 1;
      ContentsSwapDelete(entries, table.index[slot]);
      var oldIndex := Bury(slot);
      if oldIndex != finalIndex {
        FillHole(table, oldIndex);
      } else {
        DeleteEndsAtLast(table.hash[..], table.index[..], Keys(entries), depth, hasher);
        assert Keys(entries[..finalIndex]) == Keys(entries)[..finalIndex];
        entries := entries[..finalIndex];
        depth := depth[..finalIndex];
        assert entries == SwapDelete(old(entries), oldIndex);
      }
    }

    /** Halves a table that is less than a quarter full; rebuilds one with too many tombstones. */
    method Compact()
      requires AfterSwapOut()
      modifies `table, `depth
      ensures Valid() && fresh(Repr() - old(Repr()))
    {
      hide LinkedFor, CountersOk, Contents;
      var n := table.hash.Length;
      TableSizeFacts(n);
      if table.usedCount < ShrinkThreshold(n) && n > BUCKET_LENGTH {
        table, depth := Rebuild(n / 2, table, Keys(entries), depth, hasher);
      } else if table.tombstoneCount > TombstoneThreshold(n) {
        table, depth := Rebuild(n, table, Keys(entries), depth, hasher);
      }
    }

    method Delete(key: int) returns (removed: bool)
      requires Valid()
      modifies Repr()
      ensures Valid() && fresh(Repr() - old(Repr()))
      ensures defaultValue == old(defaultValue)
      ensures removed <==> key in old(Contents(entries))
      ensures Contents(entries) == old(Contents(entries)) - {key}
      ensures removed ==> entries == SwapDelete(old(entries), PositionOf(old(Keys(entries)), key))
      ensures !removed ==> entries == old(entries)
    {
      hide LinkedFor, CountersOk, MissedAt, TombstoneSeen, Place, SlotsOk, Contents, Home;
      ContentsDomain(entries, key);
      if table == null {
        return false;
      }
      ReadyForLookup();
      var r, tombstone, t := table.Lookup(entries, hasher, key);
      if r.Empty? {
        ghost var _ := MissGivesSlot(table.hash[..], table.index[..], Keys(entries), depth, hasher, key, r.slot, tombstone, t);
        return false;
      }
      assert Keys(entries)[table.index[r.slot]] == key;
      ContentsSwapDelete(entries, table.index[r.slot]);
      SwapOut(r.slot);
      Compact();
      return true;
    }
  }

  // ---------------------------------------------------------------------
  // Whole runs

  datatype Operation<V> = PutOp(key: int, value: V) | GetOp(key: int) | DeleteOp(key: int)

  datatype Answer<V> = Done | Value(value: V) | Removed(wasPresent: bool)

  /** The map after a sequence of operations. */
  ghost function MapAfter<V>(ops: seq<Operation<V>>, m: map<int, V>): map<int, V> {
    if ops == [] then m
    else
      var before := MapAfter(ops[..|ops| - 1], m);
      match ops[|ops| - 1]
      case PutOp(k, v) => before[k := v]
      case GetOp(_) => before
      case DeleteOp(k) => before - {k}
  }

  /** What a plain map answers to the last operation of a run. */
  ghost function MapAnswer<V>(ops: seq<Operation<V>>, m: map<int, V>, default_: V): Answer<V>
    requires ops != []
  {
    var before := MapAfter(ops[..|ops| - 1], m);
    match ops[|ops| - 1]
    case PutOp(_, _) => Done
    case GetOp(k) => Value(if k in before then before[k] else default_)
    case DeleteOp(k) => Removed(k in before)
  }

  /** Over every run, the table answers each operation as a plain map would and ends as that map. */
  method Run<V>(m: HashMap<V>, ops: seq<Operation<V>>) returns (answers: seq<Answer<V>>)
    requires m.Valid()
    modifies m.Repr()
    ensures m.Valid() && fresh(m.Repr() - old(m.Repr()))
    ensures Contents(m.entries) == MapAfter(ops, old(Contents(m.entries)))
    ensures |answers| == |ops|
    ensures forall i :: 0 <= i < |ops| ==>
              answers[i] == MapAnswer(ops[..i + 1], old(Contents(m.entries)), old(m.defaultValue))
  {
    hide HashMap.TableValid, Contents;
    ghost var start, default_ := Contents(m.entries), m.defaultValue;
    answers := [];
    for n := 0 to |ops|
      invariant m.Valid() && fresh(m.Repr() - old(m.Repr()))
      invariant m.defaultValue == default_
      invariant Contents(m.entries) == MapAfter(ops[..n], start)
      invariant |answers| == n
      invariant forall i :: 0 <= i < n ==> answers[i] == MapAnswer(ops[..i + 1], start, default_)
    {
      assert ops[..n + 1][..n] == ops[..n];
      match ops[n] {
        case PutOp(k, v) =>
          m.Put(k, v);
          answers := answers + [Done];
        case GetOp(k) =>
          var v := m.Get(k);
          answers := answers + [Value(v)];
        case DeleteOp(k) =>
          var b := m.Delete(k);
          answers := answers + [Removed(b)];
      }
    }
    assert ops[..|ops|] == ops;
  }
}
