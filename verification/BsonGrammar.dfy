/** Exactly which documents are read, and as what: by the bytes at positions and in literals. */
module BsonGrammar {
  import opened Text
  import opened Numerals
  import opened Dict
  import opened BsonSpec
  import opened BsonFormat

  /** The size that the first four bytes say; it is positive. */
  ghost predicate SizeAt(b: string, i: nat, size: int) {
    i + 4 <= |b| && 1 <= size == LittleEndianSum(b[i..i + 4], 0) < 0x8000_0000
  }

  ghost function TwosComplement(n: nat): int { if n < 0x8000_0000_0000_0000 then n else n - 0x1_0000_0000_0000_0000 }

  /** A value of this type from i to j. */
  ghost predicate ValueRead(b: string, kind: nat, i: nat, j: nat, v: Value)
    requires i <= j <= |b|
    decreases j - i, 1
  {
    match v
    case Null => kind == 10 && j == i
    case Bool(yes) => kind == 8 && j == i + 1 && (yes <==> b[i] as int != 0)
    case Number(bits) => kind == 1 && j == i + 8 && bits == LittleEndianSum(b[i..j], 0)
    case Int64(n) => kind == 18 && j == i + 8 && n == TwosComplement(LittleEndianSum(b[i..j], 0))
    case Str(s) => kind == 2 && i + 5 <= j && SizeAt(b, i, j - i - 4) && s == UpToZero(b[i + 4..j - 1]) && 1 <= |s| < 20000000
    case Array(items) => kind == 4 && DocumentRead(b, i, j, items, true)
    case Object(fields) => kind == 3 && DocumentRead(b, i, j, fields, false)
  }

  /** A size and entries; the last byte is not looked at. */
  ghost predicate DocumentRead(b: string, i: nat, j: nat, items: Items, isArray: bool)
    requires i <= j <= |b|
    decreases j - i, 0
  {
    i + 5 <= j && SizeAt(b, i, j - i) && EntriesRead(b, i + 4, j, Nothing, items, isArray)
  }

  /** Entries behind those before, up to the last byte, or up to a zero byte in front of it. */
  ghost predicate EntriesRead(b: string, i: nat, j: nat, before: Items, items: Items, isArray: bool)
    requires i <= j <= |b|
    decreases j - i, 3
  {
    || (items == before && (i + 1 == j || (i + 2 == j && b[i] as int == 0)))
    || (i + 1 < j && b[i] as int != 0 &&
        exists k, next :: i < k <= j && EntryRead(b, i, k, before, next, isArray) && EntriesRead(b, k, j, next, items, isArray))
  }

  /** A type byte, a key up to the first zero byte, a value.  An element is added whatever its key; a field must have a key
      that is neither empty nor too long, and changes the value of a key that is there. */
  ghost predicate EntryRead(b: string, i: nat, k: nat, before: Items, next: Items, isArray: bool)
    requires i <= k <= |b|
    decreases k - i, 2
  {
    exists z, v :: i < z < k && KeyEnds(b, i + 1, z) && ValueBehind(b, i, z, k, v)
                   && if isArray then next == More(before, "", v) else SetField(before, UpToZero(b[i + 1..z]), v) == Some(next)
  }

  /** The value behind the zero byte of a key, with the type at i. */
  ghost predicate ValueBehind(b: string, i: nat, z: nat, k: nat, v: Value)
    requires i < z < k <= |b|
    decreases k - z, 0
  {
    ValueRead(b, b[i] as nat, z + 1, k, v)
  }

  ghost predicate KeyEnds(b: string, i: nat, z: nat) { z < |b| && b[z] as int == 0 && forall m :: i <= m < z ==> b[m] as int != 0 }

  // ---------------------------------------------------------------------
  // Numbers

  lemma {:induction false} UnsignedBound(s: string)
    requires IsBytes(s)
    ensures Unsigned(s) < Pow256(|s|)
  {
    if s != "" {
      UnsignedBound(s[1..]);
      assert s[0] as nat < 256;
    }
  }

  lemma SumIsUnsigned(s: string)
    ensures LittleEndianSum(s, 0) == Unsigned(s)
  {
    hide LittleEndianSum, Unsigned;
    SumIs(s, 0);
    assert Power(256, 0) == 1;
  }

  lemma SizeIs(b: string, i: nat, size: int)
    requires IsBytes(b) && i + 4 <= |b|
    ensures SizeAt(b, i, size) <==> size == Signed(Unsigned(b[i..i + 4]), 4) && size >= 1
  {
    hide LittleEndianSum, Unsigned, IsBytes;
    BytesSlice(b, i, i + 4);
    SumIsUnsigned(b[i..i + 4]);
    UnsignedBound(b[i..i + 4]);
    Powers();
  }

  lemma BytesSlice(b: string, i: nat, j: nat)
    requires IsBytes(b) && i <= j <= |b|
    ensures IsBytes(b[i..j])
  {
  }

  lemma LongIs(b: string, i: nat)
    requires IsBytes(b) && i + 8 <= |b|
    ensures LittleEndianSum(b[i..i + 8], 0) == Unsigned(b[i..i + 8])
    ensures TwosComplement(Unsigned(b[i..i + 8])) == Signed(Unsigned(b[i..i + 8]), 8)
  {
    hide LittleEndianSum, Unsigned, IsBytes;
    SumIsUnsigned(b[i..i + 8]);
    Powers();
  }

  lemma KeyIff(b: string, i: nat, end: nat, z: nat)
    requires i <= end <= |b|
    ensures FindZero(b, i, end) == Some(z) <==> i <= z < end && KeyEnds(b, i, z)
  {
  }

  // ---------------------------------------------------------------------
  // Everything of this form is read

  lemma ScalarTaken(b: string, kind: nat, i: nat, j: nat, end: nat, v: Value)
    requires IsBytes(b) && i <= j <= end <= |b| && ValueRead(b, kind, i, j, v) && !v.Array? && !v.Object?
    ensures DecodeValue(b, kind, i, end) == Some(Read(v, j - i))
  {
    hide LittleEndianSum, Unsigned, IsBytes, UpToZero, DecodeDocument, DocumentRead;
    if kind == 2 {
      SizeIs(b, i, j - i - 4);
      assert i + 4 + (j - i - 4) - 1 == j - 1;
    } else if kind == 1 || kind == 18 {
      LongIs(b, i);
    }
  }

  lemma {:induction false} ValueTaken(b: string, kind: nat, i: nat, j: nat, end: nat, v: Value)
    requires IsBytes(b) && i <= j <= end <= |b| && ValueRead(b, kind, i, j, v)
    ensures DecodeValue(b, kind, i, end) == Some(Read(v, j - i))
    decreases j - i, 1
  {
    hide DecodeDocument, IsBytes, DocumentRead, Unsigned;
    if v.Array? || v.Object? {
      DocumentTaken(b, i, j, end - i, if v.Array? then v.items else v.fields, v.Array?);
    } else {
      ScalarTaken(b, kind, i, j, end, v);
    }
  }

  lemma {:induction false} DocumentTaken(b: string, i: nat, j: nat, len: nat, items: Items, isArray: bool)
    requires IsBytes(b) && i <= j <= i + len <= |b| && DocumentRead(b, i, j, items, isArray)
    ensures DecodeDocument(b, i, len, isArray) == Some(Read(items, j - i))
    decreases j - i, 0
  {
    hide DecodeItems, EntriesRead, IsBytes, Unsigned;
    SizeIs(b, i, j - i);
    EntriesTaken(b, i + 4, j, Nothing, items, isArray);
  }

  lemma {:induction false} EntriesTaken(b: string, i: nat, j: nat, before: Items, items: Items, isArray: bool)
    requires IsBytes(b) && i <= j <= |b| && EntriesRead(b, i, j, before, items, isArray)
    ensures DecodeItems(b, i, j, before, isArray) == Some(items)
    decreases j - i, 3
  {
    hide DecodeEntry, EntryRead, IsBytes;
    if !(items == before && (i + 1 == j || (i + 2 == j && b[i] as int == 0))) {
      var k, next :| i < k <= j && EntryRead(b, i, k, before, next, isArray) && EntriesRead(b, k, j, next, items, isArray);
      EntryTaken(b, i, k, j, before, next, isArray);
      EntriesTaken(b, k, j, next, items, isArray);
    }
  }

  lemma {:induction false} EntryTaken(b: string, i: nat, k: nat, j: nat, before: Items, next: Items, isArray: bool)
    requires IsBytes(b) && i <= k <= j <= |b| && EntryRead(b, i, k, before, next, isArray)
    ensures i < j && DecodeEntry(b, i, j, before, isArray) == Some(Read(next, k - i))
    decreases k - i, 2
  {
    hide DecodeValue, ValueRead, UpToZero, SetField, IsBytes, FindZero, KeyEnds;
    var z, v :| i < z < k && KeyEnds(b, i + 1, z) && ValueBehind(b, i, z, k, v)
                && if isArray then next == More(before, "", v) else SetField(before, UpToZero(b[i + 1..z]), v) == Some(next);
    KeyIff(b, i + 1, j, z);
    ValueTaken(b, b[i] as nat, z + 1, k, j, v);
  }

  // ---------------------------------------------------------------------
  // Nothing else is read

  lemma ScalarGiven(b: string, kind: nat, i: nat, end: nat)
    requires IsBytes(b) && i <= end <= |b| && DecodeValue(b, kind, i, end).Some? && kind != 3 && kind != 4
    ensures var r := DecodeValue(b, kind, i, end).value; i + r.size <= end && ValueRead(b, kind, i, i + r.size, r.value)
  {
    hide LittleEndianSum, Unsigned, IsBytes, UpToZero, DecodeDocument, DocumentRead;
    if kind == 2 {
      SizeIs(b, i, Signed(Unsigned(b[i..i + 4]), 4));
    } else if kind == 1 || kind == 18 {
      LongIs(b, i);
    }
  }

  lemma {:induction false} ValueGiven(b: string, kind: nat, i: nat, end: nat)
    requires IsBytes(b) && i <= end <= |b| && DecodeValue(b, kind, i, end).Some?
    ensures var r := DecodeValue(b, kind, i, end).value; i + r.size <= end && ValueRead(b, kind, i, i + r.size, r.value)
    decreases end - i, 1
  {
    hide DecodeDocument, IsBytes, DocumentRead, Unsigned;
    if kind == 3 || kind == 4 {
      DocumentGiven(b, i, end - i, kind == 4);
    } else {
      ScalarGiven(b, kind, i, end);
    }
  }

  lemma {:induction false} DocumentGiven(b: string, i: nat, len: nat, isArray: bool)
    requires IsBytes(b) && i + len <= |b| && DecodeDocument(b, i, len, isArray).Some?
    ensures var r := DecodeDocument(b, i, len, isArray).value; r.size <= len && DocumentRead(b, i, i + r.size, r.value, isArray)
    decreases len, 0
  {
    hide DecodeItems, EntriesRead, IsBytes, Unsigned;
    var size := Signed(Unsigned(b[i..i + 4]), 4);
    SizeIs(b, i, size);
    EntriesGiven(b, i + 4, i + size, Nothing, isArray);
  }

  lemma {:induction false} EntriesGiven(b: string, i: nat, j: nat, before: Items, isArray: bool)
    requires IsBytes(b) && j <= |b| && DecodeItems(b, i, j, before, isArray).Some?
    ensures i <= j && EntriesRead(b, i, j, before, DecodeItems(b, i, j, before, isArray).value, isArray)
    decreases j - i, 3
  {
    hide DecodeEntry, EntryRead, IsBytes;
    if i + 1 < j && b[i] as nat != 0 {
      EntryGiven(b, i, j, before, isArray);
      var r := DecodeEntry(b, i, j, before, isArray).value;
      EntriesGiven(b, i + r.size, j, r.value, isArray);
    }
  }

  lemma {:induction false} EntryGiven(b: string, i: nat, j: nat, before: Items, isArray: bool)
    requires IsBytes(b) && i < j <= |b| && DecodeEntry(b, i, j, before, isArray).Some?
    ensures DecodeEntry(b, i, j, before, isArray).value.size >= 2
    ensures var r := DecodeEntry(b, i, j, before, isArray).value; i + r.size <= j && EntryRead(b, i, i + r.size, before, r.value, isArray)
    decreases j - i, 2
  {
    hide DecodeValue, ValueRead, UpToZero, SetField, IsBytes, FindZero, KeyEnds;
    var z := FindZero(b, i + 1, j).value;
    KeyIff(b, i + 1, j, z);
    ValueGiven(b, b[i] as nat, z + 1, j);
    var r := DecodeValue(b, b[i] as nat, z + 1, j).value;
    assert ValueBehind(b, i, z, z + 1 + r.size, r.value);
  }

  /** A buffer is read exactly when it is one document from its first to its last byte, and as this object. */
  lemma DecodeIff(b: string, fields: Items)
    requires IsBytes(b)
    ensures Decode(b) == Some(Object(fields)) <==> DocumentRead(b, 0, |b|, fields, false)
    ensures Decode(b).Some? ==> Decode(b).value.Object?
  {
    hide DecodeDocument, DocumentRead, IsBytes;
    if DocumentRead(b, 0, |b|, fields, false) {
      DocumentTaken(b, 0, |b|, |b|, fields, false);
    }
    if Decode(b).Some? {
      DocumentGiven(b, 0, |b|, false);
    }
  }
}
