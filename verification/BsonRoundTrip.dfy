/** Reading what was written gives the same tree. */
module BsonRoundTrip {
  import opened Text
  import opened Dict
  import opened BsonSpec

  lemma Pow256Is()
    ensures Pow256(4) == 0x1_0000_0000 && Pow256(8) == 0x1_0000_0000_0000_0000
  {
    assert Pow256(1) == 256;
    assert Pow256(2) == 0x1_0000;
    assert Pow256(3) == 0x100_0000;
    assert Pow256(4) == 0x1_0000_0000;
    assert Pow256(5) == 0x100_0000_0000;
    assert Pow256(6) == 0x1_0000_0000_0000;
    assert Pow256(7) == 0x100_0000_0000_0000;
  }

  /** A number of this width is read back. */
  lemma NumberRead(b: string, at: nat, n: nat, width: nat)
    requires n < Pow256(width) && Holds(b, at, LittleEndian(n, width))
    ensures at + width <= |b| && Unsigned(b[at..at + width]) == n
  {
    LittleEndianUnsigned(n, width);
  }

  lemma LengthRead(b: string, at: nat, n: nat)
    requires n < 0x8000_0000 && Holds(b, at, LittleEndian(Wrap(n, 4), 4))
    ensures at + 4 <= |b| && Signed(Unsigned(b[at..at + 4]), 4) == n
  {
    hide LittleEndian, Unsigned, Pow256;
    Pow256Is();
    NumberRead(b, at, n, 4);
  }

  lemma {:induction false} FindZeroIs(b: string, pos: nat, key: CString, end: nat)
    requires Holds(b, pos, key + [0 as char]) && pos + |key| < end <= |b|
    ensures FindZero(b, pos, end) == Some(pos + |key|)
    decreases |key|
  {
    var whole := key + [0 as char];
    assert b[pos] == b[pos..pos + |whole|][0];
    if key != "" {
      assert whole == [key[0]] + (key[1..] + [0 as char]) + "";
      HoldsPart(b, pos, [key[0]], key[1..] + [0 as char], "");
      FindZeroIs(b, pos + 1, key[1..], end);
    }
  }

  lemma ScalarDecodes(b: string, v: Value, pos: nat, end: nat)
    requires Storable(v) && (v.Null? || v.Bool? || v.Number? || v.Int64?)
    requires Holds(b, pos, EncodeValue(v)) && pos + |EncodeValue(v)| <= end <= |b|
    ensures DecodeValue(b, TypeByte(v) as nat, pos, end) == Some(Read(v, |EncodeValue(v)|))
  {
    hide LittleEndian, Unsigned, Pow256;
    Pow256Is();
    match v {
      case Null =>
      case Bool(x) => assert b[pos] == b[pos..pos + 1][0];
      case Number(bits) => NumberRead(b, pos, bits, 8);
      case Int64(n) => NumberRead(b, pos, Wrap(n, 8), 8);
    }
  }

  lemma StringDecodes(b: string, s: CString, pos: nat, end: nat)
    requires 0 < |s| < MAX_VALUE_LEN
    requires Holds(b, pos, EncodeValue(Str(s))) && pos + |EncodeValue(Str(s))| <= end <= |b|
    ensures DecodeValue(b, 2, pos, end) == Some(Read(Str(s), |EncodeValue(Str(s))|))
  {
    hide LittleEndian, Unsigned, UpToZero, Holds;
    var len := LittleEndian(Wrap(|s| + 1, 4), 4);
    assert EncodeValue(Str(s)) == "" + len + (s + [0 as char]);
    HoldsPart(b, pos, "", len, s + [0 as char]);
    LengthRead(b, pos, |s| + 1);
    HoldsPart(b, pos, len, s, [0 as char]);
    HoldsIs(b, pos + 4, s);
    UpToZeroIs(s);
  }

  /** A value is read back, wherever it is. */
  lemma {:induction false} ValueDecodes(b: string, v: Value, pos: nat, end: nat)
    requires Storable(v) && |EncodeValue(v)| < 0x8000_0000
    requires Holds(b, pos, EncodeValue(v)) && pos + |EncodeValue(v)| <= end <= |b|
    ensures DecodeValue(b, TypeByte(v) as nat, pos, end) == Some(Read(v, |EncodeValue(v)|))
    decreases v, 1
  {
    hide Holds, DecodeDocument, EncodeDocument, StorableItems;
    match v {
      case Str(s) => StringDecodes(b, s, pos, end);
      case Array(items) => DocumentDecodes(b, items, true, pos, end - pos);
      case Object(fields) => DocumentDecodes(b, fields, false, pos, end - pos);
      case _ => ScalarDecodes(b, v, pos, end);
    }
  }

  lemma EntryDecodes(b: string, init: Items, key: CString, value: Value, isArray: bool, pos: nat, end: nat)
    requires Storable(value) && StorableKey(init, key, isArray)
    requires var entry := EncodeEntry(init, key, value, isArray);
             |entry| < 0x8000_0000 && Holds(b, pos, entry) && pos + |entry| < end <= |b|
    ensures DecodeItems(b, pos, end, init, isArray) ==
            DecodeItems(b, pos + |EncodeEntry(init, key, value, isArray)|, end, More(init, key, value), isArray)
    decreases value, 2
  {
    hide Holds, DecodeItems, EncodeValue, KeyOf, Storable, FindZero, UpToZero, DecodeValue;
    var kind, k, data := [TypeByte(value)], KeyOf(init, key, isArray), EncodeValue(value);
    assert EncodeEntry(init, key, value, isArray) == "" + kind + (k + [0 as char] + data);
    HoldsPart(b, pos, "", kind, k + [0 as char] + data);
    HoldsIs(b, pos, kind);
    assert b[pos] == b[pos..pos + 1][0];
    assert EncodeEntry(init, key, value, isArray) == kind + (k + [0 as char]) + data;
    HoldsPart(b, pos, kind, k + [0 as char], data);
    FindZeroIs(b, pos + 1, k, end);
    assert EncodeEntry(init, key, value, isArray) == kind + k + ([0 as char] + data);
    HoldsPart(b, pos, kind, k, [0 as char] + data);
    HoldsIs(b, pos + 1, k);
    UpToZeroIs(k);
    assert EncodeEntry(init, key, value, isArray) == (kind + k + [0 as char]) + data + "";
    HoldsPart(b, pos, kind + k + [0 as char], data, "");
    ValueDecodes(b, value, pos + |k| + 2, end);
    AddEntryIs(init, key, value, isArray);
    DecodeStep(b, pos, end, init, isArray, pos + 1 + |k|, k, Read(value, |data|), More(init, key, value));
  }

  lemma AddEntryIs(init: Items, key: CString, value: Value, isArray: bool)
    requires StorableKey(init, key, isArray)
    ensures AddEntry(init, KeyOf(init, key, isArray), value, isArray) == Some(More(init, key, value))
  {
  }

  /** One round of the reading loop. */
  lemma DecodeStep(b: string, pos: nat, end: nat, items: Items, isArray: bool, zero: nat, key: CString, r: Read<Value>, more: Items)
    requires end <= |b| && pos + 1 < end && b[pos] as nat != 0
    requires FindZero(b, pos + 1, end) == Some(zero) && UpToZero(b[pos + 1..zero]) == key
    requires DecodeValue(b, b[pos] as nat, zero + 1, end) == Some(r) && AddEntry(items, key, r.value, isArray) == Some(more)
    ensures DecodeItems(b, pos, end, items, isArray) == DecodeItems(b, zero + 1 + r.size, end, more, isArray)
  {
    hide FindZero, UpToZero, DecodeValue, AddEntry;
  }

  lemma {:induction false} ItemsDecode(b: string, items: Items, isArray: bool, pos: nat, end: nat)
    requires StorableItems(items, isArray)
    requires var body := EncodeItems(items, isArray);
             |body| < 0x8000_0000 && Holds(b, pos, body) && pos + |body| < end <= |b|
    ensures DecodeItems(b, pos, end, Nothing, isArray) == DecodeItems(b, pos + |EncodeItems(items, isArray)|, end, items, isArray)
    decreases items, 0
  {
    hide Holds, DecodeItems, EncodeEntry, Storable;
    match items {
      case Nothing =>
      case More(init, key, value) =>
        var a, c := EncodeItems(init, isArray), EncodeEntry(init, key, value, isArray);
        assert EncodeItems(items, isArray) == "" + a + c;
        HoldsPart(b, pos, "", a, c);
        ItemsDecode(b, init, isArray, pos, end);
        assert EncodeItems(items, isArray) == a + c + "";
        HoldsPart(b, pos, a, c, "");
        EntryDecodes(b, init, key, value, isArray, pos + |a|, end);
    }
  }

  lemma DocumentDecodes(b: string, items: Items, isArray: bool, off: nat, len: nat)
    requires StorableItems(items, isArray)
    requires var doc := EncodeDocument(items, isArray);
             |doc| < 0x8000_0000 && Holds(b, off, doc) && |doc| <= len && off + len <= |b|
    ensures DecodeDocument(b, off, len, isArray) == Some(Read(items, |EncodeDocument(items, isArray)|))
    decreases items, 1
  {
    hide Holds, DecodeItems, EncodeItems, StorableItems, LittleEndian, Unsigned, Signed, Wrap;
    var body := EncodeItems(items, isArray);
    var head := LittleEndian(Wrap(|body| + 5, 4), 4);
    assert EncodeDocument(items, isArray) == "" + head + (body + [0 as char]);
    HoldsPart(b, off, "", head, body + [0 as char]);
    LengthRead(b, off, |body| + 5);
    HoldsPart(b, off, head, body, [0 as char]);
    ItemsDecode(b, items, isArray, off + 4, off + |body| + 5);
    DecodeEnd(b, off + |body| + 4, items, isArray);
  }

  lemma DecodeEnd(b: string, pos: nat, items: Items, isArray: bool)
    requires pos + 1 <= |b|
    ensures DecodeItems(b, pos, pos + 1, items, isArray) == Some(items)
  {
  }

  /** A document is read back as the tree it was made of, entry for entry and in order. */
  lemma RoundTrip(fields: Items)
    requires Storable(Object(fields)) && |EncodeDocument(fields, false)| < 0x8000_0000
    ensures Decode(EncodeDocument(fields, false)) == Some(Object(fields))
  {
    hide EncodeDocument, DecodeDocument, StorableItems;
    var b := EncodeDocument(fields, false);
    assert b[0..0 + |b|] == b;
    DocumentDecodes(b, fields, false, 0, |b|);
  }

  // ---------------------------------------------------------------------
  // What is read can be written

  lemma {:induction false} UnsignedInRange(b: string)
    requires IsBytes(b)
    ensures Unsigned(b) < Pow256(|b|)
  {
    if b != "" {
      UnsignedInRange(b[1..]);
    }
  }

  lemma {:induction false} ReplaceStorable(items: Items, key: string, value: Value)
    requires StorableItems(items, false) && Storable(value)
    ensures StorableItems(Replace(items, key, value), false)
  {
    hide Storable;
    if items.More? {
      ReplaceStorable(items.init, key, value);
      ReplaceKeys(items.init, key, value, items.key);
    }
  }

  lemma AddStorable(items: Items, key: CString, value: Value, isArray: bool)
    requires StorableItems(items, isArray) && Storable(value)
    ensures var r := AddEntry(items, key, value, isArray); r.Some? ==> StorableItems(r.value, isArray)
  {
    hide Storable;
    if !isArray {
      ReplaceStorable(items, key, value);
    }
  }

  lemma {:induction false} ValueStorable(b: string, kind: nat, pos: nat, end: nat)
    requires pos <= end <= |b| && IsBytes(b)
    ensures var r := DecodeValue(b, kind, pos, end); r.Some? ==> Storable(r.value.value)
    decreases end - pos, 1
  {
    hide UpToZero, StorableItems, DecodeDocument, Unsigned, Pow256;
    Pow256Is();
    if (kind == 1 || kind == 18) && pos + 8 <= end {
      UnsignedInRange(b[pos..pos + 8]);
    } else if kind == 3 || kind == 4 {
      DocumentStorable(b, pos, end - pos, kind == 4);
    }
  }

  lemma EntryStorable(b: string, pos: nat, end: nat, items: Items, isArray: bool)
    requires pos < end <= |b| && IsBytes(b) && StorableItems(items, isArray)
    ensures var r := DecodeEntry(b, pos, end, items, isArray); r.Some? ==> StorableItems(r.value.value, isArray)
    decreases end - pos, 2
  {
    hide UpToZero, Storable, StorableItems, DecodeValue, AddEntry, FindZero;
    var zero := FindZero(b, pos + 1, end);
    if zero.Some? {
      ValueStorable(b, b[pos] as nat, zero.value + 1, end);
      var r := DecodeValue(b, b[pos] as nat, zero.value + 1, end);
      if r.Some? {
        AddStorable(items, UpToZero(b[pos + 1..zero.value]), r.value.value, isArray);
      }
    }
  }

  lemma {:induction false} ItemsStorable(b: string, pos: nat, end: nat, items: Items, isArray: bool)
    requires end <= |b| && IsBytes(b) && StorableItems(items, isArray)
    ensures var r := DecodeItems(b, pos, end, items, isArray); r.Some? ==> StorableItems(r.value, isArray)
    decreases end - pos, 3
  {
    hide StorableItems, DecodeEntry;
    if pos + 1 < end && b[pos] as nat != 0 {
      EntryStorable(b, pos, end, items, isArray);
      var r := DecodeEntry(b, pos, end, items, isArray);
      if r.Some? {
        ItemsStorable(b, pos + r.value.size, end, r.value.value, isArray);
      }
    }
  }

  lemma {:induction false} DocumentStorable(b: string, off: nat, len: nat, isArray: bool)
    requires off + len <= |b| && IsBytes(b)
    ensures var r := DecodeDocument(b, off, len, isArray); r.Some? ==> StorableItems(r.value.value, isArray)
    decreases len, 0
  {
    hide Unsigned, DecodeItems;
    if len >= 5 {
      var size := Signed(Unsigned(b[off..off + 4]), 4);
      if 5 <= size <= len {
        ItemsStorable(b, off + 4, off + size, Nothing, isArray);
      }
    }
  }

  /** Reading back gives the same tree exactly when a document can carry it. */
  lemma RoundTripIff(fields: Items)
    requires |EncodeDocument(fields, false)| < 0x8000_0000 && IsBytes(EncodeDocument(fields, false))
    ensures Decode(EncodeDocument(fields, false)) == Some(Object(fields)) <==> Storable(Object(fields))
  {
    hide EncodeDocument, DecodeDocument, StorableItems;
    var b := EncodeDocument(fields, false);
    DocumentStorable(b, 0, |b|, false);
    if Storable(Object(fields)) {
      RoundTrip(fields);
    }
  }

  /** Every tree that is read from any bytes can be written and read again. */
  lemma ReadCanBeWritten(b: string)
    requires IsBytes(b)
    ensures match Decode(b)
            case Some(Object(fields)) => |EncodeDocument(fields, false)| < 0x8000_0000 ==>
                                           Decode(EncodeDocument(fields, false)) == Decode(b)
            case _ => Decode(b) == None
  {
    hide EncodeDocument, DecodeDocument, StorableItems;
    DocumentStorable(b, 0, |b|, false);
    var r := DecodeDocument(b, 0, |b|, false);
    if r.Some? && |EncodeDocument(r.value.value, false)| < 0x8000_0000 {
      RoundTrip(r.value.value);
    }
  }
}
