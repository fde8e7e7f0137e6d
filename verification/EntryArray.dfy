/** The dense array of key-value entries behind a slot table, as a finite map. */
module EntryArray {
  import opened HashIndex

  datatype Entry<V> = Entry(key: int, value: V)

  ghost function Keys<V>(entries: seq<Entry<V>>): (keys: seq<int>)
    ensures |keys| == |entries|
    ensures forall i :: 0 <= i < |entries| ==> keys[i] == entries[i].key
  {
    seq(|entries|, i requires 0 <= i < |entries| => entries[i].key)
  }

  ghost function PositionOf(keys: seq<int>, k: int): (i: nat)
    requires k in keys
    ensures i < |keys| && keys[i] == k
  {
    var i: nat :| i < |keys| && keys[i] == k;
    i
  }

  /** The finite map that an entry array with distinct keys stands for. */
  ghost function Contents<V>(entries: seq<Entry<V>>): map<int, V> {
    var keys := Keys(entries);
    map k | k in keys :: entries[PositionOf(keys, k)].value
  }

  lemma ContentsDomain<V>(entries: seq<Entry<V>>, key: int)
    ensures key in Contents(entries) <==> key in Keys(entries)
  {
  }

  lemma ContentsAt<V>(entries: seq<Entry<V>>, i: nat)
    requires i < |entries| && DistinctKeys(Keys(entries))
    ensures entries[i].key in Contents(entries) && Contents(entries)[entries[i].key] == entries[i].value
  {
    var keys := Keys(entries);
    assert keys[i] in keys;
    var j := PositionOf(keys, keys[i]);
    assert i == j;
  }

  /** Over distinct keys, the map is determined by its domain and its value at every entry. */
  lemma ContentsUnique<V>(entries: seq<Entry<V>>, m: map<int, V>)
    requires DistinctKeys(Keys(entries))
    requires forall k :: k in m ==> k in Keys(entries)
    requires forall i :: 0 <= i < |entries| ==> entries[i].key in m && m[entries[i].key] == entries[i].value
    ensures Contents(entries) == m
  {
  }

  lemma ContentsOverwrite<V>(entries: seq<Entry<V>>, i: nat, value: V)
    requires i < |entries| && DistinctKeys(Keys(entries))
    ensures Keys(entries[i := Entry(entries[i].key, value)]) == Keys(entries)
    ensures Contents(entries[i := Entry(entries[i].key, value)]) == Contents(entries)[entries[i].key := value]
  {
    var k := entries[i].key;
    var entries', m := entries[i := Entry(k, value)], Contents(entries)[k := value];
    assert Keys(entries') == Keys(entries);
    forall j | 0 <= j < |entries'|
      ensures entries'[j].key in m && m[entries'[j].key] == entries'[j].value
    {
      ContentsAt(entries, j);
      assert j != i ==> Keys(entries)[i] != Keys(entries)[j];
    }
    forall x | x in m
      ensures x in Keys(entries')
    {
      assert Keys(entries)[i] == k;
    }
    ContentsUnique(entries', m);
  }

  lemma ContentsAppend<V>(entries: seq<Entry<V>>, e: Entry<V>)
    requires DistinctKeys(Keys(entries)) && e.key !in Keys(entries)
    ensures Keys(entries + [e]) == Keys(entries) + [e.key]
    ensures DistinctKeys(Keys(entries + [e]))
    ensures Contents(entries + [e]) == Contents(entries)[e.key := e.value]
  {
    var entries', m := entries + [e], Contents(entries)[e.key := e.value];
    assert Keys(entries') == Keys(entries) + [e.key];
    forall j | 0 <= j < |entries'|
      ensures entries'[j].key in m && m[entries'[j].key] == entries'[j].value
    {
      if j < |entries| {
        ContentsAt(entries, j);
        assert Keys(entries)[j] in Keys(entries);
      }
    }
    ContentsUnique(entries', m);
  }

  /** Moving the last entry into position i and dropping the last position. */
  ghost function SwapDelete<T>(s: seq<T>, i: nat): (r: seq<T>)
    requires i < |s|
  {
    s[i := s[|s| - 1]][..|s| - 1]
  }

  lemma ContentsSwapDelete<V>(entries: seq<Entry<V>>, i: nat)
    requires i < |entries| && DistinctKeys(Keys(entries))
    ensures Keys(SwapDelete(entries, i)) == SwapDelete(Keys(entries), i)
    ensures DistinctKeys(Keys(SwapDelete(entries, i)))
    ensures Contents(SwapDelete(entries, i)) == Contents(entries) - {entries[i].key}
  {
    var keys := Keys(entries);
    var entries', m := SwapDelete(entries, i), Contents(entries) - {entries[i].key};
    assert Keys(entries') == SwapDelete(keys, i);
    forall j | 0 <= j < |entries'|
      ensures entries'[j].key in m && m[entries'[j].key] == entries'[j].value
    {
      var j' := if j == i then |entries| - 1 else j;
      ContentsAt(entries, j');
      assert keys[j'] != keys[i];
    }
    forall x | x in m
      ensures x in Keys(entries')
    {
      var j :| 0 <= j < |keys| && keys[j] == x;
      assert keys[i] == entries[i].key;
      assert Keys(entries')[if j == |keys| - 1 then i else j] == x;
    }
    ContentsUnique(entries', m);
  }
}
