/** Trees of values, and setting the fields of an object. */
module Dict {
  import opened Text

  const MAX_KEY_LEN: nat := 0x1_0000
  const MAX_VALUE_LEN: nat := 20000000

  /** A number is given by the eight bytes of its binary representation. */
  datatype Value =
    | Null
    | Bool(b: bool)
    | Number(bits: nat)
    | Int64(n: int)
    | Str(s: CString)
    | Array(items: Items)
    | Object(fields: Items)

  /** Entries in order; the key matters in objects only. */
  datatype Items = Nothing | More(init: Items, key: CString, value: Value)

  function Count(items: Items): nat {
    match items
    case Nothing => 0
    case More(init, _, _) => Count(init) + 1
  }

  function Has(items: Items, key: string): bool {
    match items
    case Nothing => false
    case More(init, k, _) => k == key || Has(init, key)
  }

  /** A new value for the first entry with this key. */
  function Replace(items: Items, key: string, value: Value): Items {
    match items
    case Nothing => items
    case More(init, k, v) => if k == key && !Has(init, key) then More(init, k, value) else More(Replace(init, key, value), k, v)
  }

  /** The first value of a key. */
  function Get(items: Items, key: string): Option<Value> {
    match items
    case Nothing => None
    case More(init, k, v) => var g := Get(init, key); if g.Some? then g else if k == key then Some(v) else None
  }

  /** A new entry, or a new value for a key that is there; keys must not be empty or too long. */
  function SetField(items: Items, key: CString, value: Value): Option<Items> {
    if |key| == 0 || |key| >= MAX_KEY_LEN then None
    else Some(if Has(items, key) then Replace(items, key, value) else More(items, key, value))
  }

  function AddEntry(items: Items, key: CString, value: Value, isArray: bool): Option<Items> {
    if isArray then Some(More(items, "", value)) else SetField(items, key, value)
  }

  /** The bytes up to the first zero; empty and very long strings are refused. */
  function ReadString(b: string): Option<Value> {
    var s := UpToZero(b);
    if |s| == 0 || |s| >= MAX_VALUE_LEN then None else Some(Str(s))
  }

  lemma {:induction false} ReplaceKeys(items: Items, key: string, value: Value, other: string)
    ensures Has(Replace(items, key, value), other) == Has(items, other)
  {
    if items.More? {
      ReplaceKeys(items.init, key, value, other);
    }
  }

  /** What a document can carry: keys are neither empty nor too long nor repeated, strings
      neither empty nor too long, numbers have 64 bits. */
  predicate Storable(v: Value)
    decreases v, 1
  {
    match v
    case Null => true
    case Bool(_) => true
    case Number(bits) => bits < 0x1_0000_0000_0000_0000
    case Int64(n) => -0x8000_0000_0000_0000 <= n < 0x8000_0000_0000_0000
    case Str(s) => 0 < |s| < MAX_VALUE_LEN
    case Array(items) => StorableItems(items, true)
    case Object(fields) => StorableItems(fields, false)
  }

  predicate StorableItems(items: Items, isArray: bool)
    decreases items, 0
  {
    match items
    case Nothing => true
    case More(init, key, value) =>
      StorableItems(init, isArray) && Storable(value) && StorableKey(init, key, isArray)
  }

  predicate StorableKey(init: Items, key: CString, isArray: bool) {
    if isArray then key == "" else 0 < |key| < MAX_KEY_LEN && !Has(init, key)
  }

  lemma {:induction false} GetIsHas(items: Items, key: string)
    ensures Get(items, key).Some? <==> Has(items, key)
  {
    if items.More? {
      GetIsHas(items.init, key);
    }
  }

  lemma {:induction false} ReplaceThenGet(items: Items, key: string, value: Value, other: string)
    requires Has(items, key)
    ensures Get(Replace(items, key, value), other) == if other == key then Some(value) else Get(items, other)
    ensures Count(Replace(items, key, value)) == Count(items)
  {
    GetIsHas(items.init, key);
    ReplaceKeys(items.init, key, value, other);
    GetIsHas(Replace(items.init, key, value), other);
    if Has(items.init, key) {
      ReplaceThenGet(items.init, key, value, other);
    }
  }

  /** Setting a field changes the value of its key only, and adds an entry only for a new key. */
  lemma SetThenGet(items: Items, key: CString, value: Value, other: string)
    ensures var r := SetField(items, key, value);
            && (r.Some? <==> 0 < |key| < MAX_KEY_LEN)
            && (r.Some? ==> Get(r.value, other) == (if other == key then Some(value) else Get(items, other))
                            && Count(r.value) == Count(items) + (if Has(items, key) then 0 else 1))
  {
    GetIsHas(items, key);
    if Has(items, key) {
      ReplaceThenGet(items, key, value, other);
    }
  }

  // ---------------------------------------------------------------------
  // Entries by position

  /** The entries from the first to the last. */
  ghost function Listed(items: Items): seq<(string, Value)> {
    match items
    case Nothing => []
    case More(init, key, value) => Listed(init) + [(key, value)]
  }

  ghost predicate FirstWith(list: seq<(string, Value)>, i: int, key: string) {
    0 <= i < |list| && list[i].0 == key && forall j :: 0 <= j < i ==> list[j].0 != key
  }

  lemma {:induction false} ReplaceListed(items: Items, key: string, value: Value, i: int)
    requires FirstWith(Listed(items), i, key)
    ensures Listed(Replace(items, key, value)) == Listed(items)[i := (key, value)]
    ensures Has(items, key)
  {
    var before := Listed(items.init);
    HasListed(items.init, key);
    if i < |before| {
      assert FirstWith(before, i, key) by { assert forall j :: 0 <= j <= i ==> before[j] == Listed(items)[j]; }
      ReplaceListed(items.init, key, value, i);
      assert before[i].0 == key;
      assert Listed(items)[i := (key, value)] == before[i := (key, value)] + [(items.key, items.value)];
    } else {
      assert forall j :: 0 <= j < |before| ==> before[j] == Listed(items)[j];
      assert Listed(items)[i := (key, value)] == before + [(key, value)];
    }
  }

  lemma {:induction false} HasListed(items: Items, key: string)
    ensures Has(items, key) <==> exists i :: 0 <= i < |Listed(items)| && Listed(items)[i].0 == key
  {
    if items.More? {
      HasListed(items.init, key);
      var before, all := Listed(items.init), Listed(items);
      assert all[|before|] == (items.key, items.value);
      assert forall i :: 0 <= i < |before| ==> all[i] == before[i];
    }
  }

  /** By position: the value of the first entry with the key is replaced in its place, and a new key comes last; a key
      is refused exactly when it is empty or has 65536 bytes or more. */
  lemma SetByPosition(items: Items, key: CString, value: Value, i: int)
    ensures var list, r := Listed(items), SetField(items, key, value);
            && (r.Some? <==> 1 <= |key| < 65536)
            && (r.Some? && FirstWith(list, i, key) ==> Listed(r.value) == list[i := (key, value)])
            && (r.Some? && (forall j :: 0 <= j < |list| ==> list[j].0 != key) ==> Listed(r.value) == list + [(key, value)])
  {
    HasListed(items, key);
    if FirstWith(Listed(items), i, key) {
      ReplaceListed(items, key, value, i);
    }
  }

  function Prefix(items: Items, n: nat): (r: Items)
    requires n <= Count(items)
    ensures Count(r) == n
  {
    if n == Count(items) then items else Prefix(items.init, n)
  }

  /** The entry after the first n. */
  function EntryAt(items: Items, n: nat): (r: Items)
    requires n < Count(items)
    ensures r == items || r < items
    ensures r.More? && r == Prefix(items, n + 1) && r.init == Prefix(items, n)
    decreases items
  {
    if n + 1 == Count(items) then items else EntryAt(items.init, n)
  }

  lemma WholePrefix(items: Items)
    ensures Prefix(items, Count(items)) == items
  {
  }
}
