/** Writing a document into a buffer of limited size, and reading one from it. */
module Bson {
  import opened Text
  import opened Dict
  import opened ByteBuffer
  import opened BsonSpec
  import opened BsonRoundTrip

  // ---------------------------------------------------------------------
  // Lengths

  lemma {:induction false} EncodePrefix(items: Items, isArray: bool, n: nat)
    requires n <= Count(items)
    ensures |EncodeItems(Prefix(items, n), isArray)| <= |EncodeItems(items, isArray)|
  {
    hide EncodeEntry;
    if n < Count(items) {
      EncodePrefix(items.init, isArray, n);
    }
  }

  // ---------------------------------------------------------------------
  // Numbers

  /** Little-endian bytes of a number. */
  method PutNumber(buf: array<char>, at: nat, n: nat, width: nat)
    requires at + width <= buf.Length
    modifies buf
    ensures buf[..] == Splice(old(buf[..]), at, LittleEndian(n, width))
  {
    hide Splice, LittleEndian;
    ghost var before := buf[..];
    var i, rest := 0, n;
    ghost var done := "";
    SpliceNothing(before, at);
    while i < width
      invariant i <= width && |done| == i && done + LittleEndian(rest, width - i) == LittleEndian(n, width)
      invariant buf[..] == Splice(before, at, done)
    {
      Put(buf, at + i, [Byte(rest)]);
      SpliceAfter(before, at, done, [Byte(rest)]);
      LowestByte(done, rest, width - i);
      done := done + [Byte(rest)];
      rest := rest / 256;
      i := i + 1;
    }
    assert done + LittleEndian(rest, 0) == done;
  }

  lemma LowestByte(done: string, n: nat, width: nat)
    requires width > 0
    ensures done + LittleEndian(n, width) == done + [Byte(n)] + LittleEndian(n / 256, width - 1)
  {
  }

  // ---------------------------------------------------------------------
  // Writing

  /** A value without its type and key; fails exactly when the space is too small for it. */
  method SerializeValue(v: Value, buf: array<char>, off: nat, len: nat) returns (ok: bool, written: nat)
    requires off + len <= buf.Length
    modifies buf
    ensures ok <==> |EncodeValue(v)| <= len
    ensures ok ==> written == |EncodeValue(v)| && buf[..] == Splice(old(buf[..]), off, EncodeValue(v))
    ensures Inside(old(buf[..]), buf[..], off, len)
    decreases v, 1
  {
    hide EncodeDocument, LittleEndian, Splice, Inside;
    ghost var b := buf[..];
    if |EncodeValue(v)| <= len {
      SpliceInside(b, off, EncodeValue(v), off, len);
    }
    InsideSame(b, off, len);
    written := 0;
    if v.Null? {
      SpliceNothing(b, off);
      ok := true;
    } else if v.Bool? {
      if len < 1 {
        return false, 0;
      }
      Put(buf, off, [if v.b then 1 as char else 0 as char]);
      return true, 1;
    } else if v.Number? || v.Int64? {
      if len < 8 {
        return false, 0;
      }
      PutNumber(buf, off, if v.Number? then v.bits else Wrap(v.n, 8), 8);
      return true, 8;
    } else if v.Str? {
      var total := 4 + |v.s| + 1;
      if len < total {
        return false, 0;
      }
      PutNumber(buf, off, Wrap(|v.s| + 1, 4), 4);
      Put(buf, off + 4, v.s + [0 as char]);
      SpliceAfter(b, off, LittleEndian(Wrap(|v.s| + 1, 4), 4), v.s + [0 as char]);
      assert LittleEndian(Wrap(|v.s| + 1, 4), 4) + (v.s + [0 as char]) == EncodeValue(v);
      return true, total;
    } else {
      ok, written := SerializeDocument(if v.Array? then v.items else v.fields, v.Array?, buf, off, len);
    }
  }

  /** A document or an array: succeeds exactly when the encoding fits, and writes nothing outside. */
  method SerializeDocument(items: Items, isArray: bool, buf: array<char>, off: nat, len: nat) returns (ok: bool, written: nat)
    requires off + len <= buf.Length
    modifies buf
    ensures ok <==> |EncodeDocument(items, isArray)| <= len
    ensures ok ==> written == |EncodeDocument(items, isArray)| && buf[..] == Splice(old(buf[..]), off, EncodeDocument(items, isArray))
    ensures Inside(old(buf[..]), buf[..], off, len)
    decreases items, 0, 1
  {
    hide EncodeItems, EncodeEntry, LittleEndian, Splice, Inside, Prefix;
    ghost var b := buf[..];
    InsideSame(b, off, len);
    var pos, i, count := 4, 0, Count(items);
    if off + 4 <= |b| {
      SpliceNothing(b, off + 4);
    }
    NoEntries(items, isArray);
    while i < count
      invariant i <= count && (i > 0 ==> pos <= len) && pos == 4 + |EncodeItems(Prefix(items, i), isArray)|
      invariant off + pos <= |b| ==> buf[..] == Splice(b, off + 4, EncodeItems(Prefix(items, i), isArray))
      invariant Inside(b, buf[..], off, len)
    {
      ghost var c := buf[..];
      var done, size := SerializeEntry(items, i, isArray, buf, off, len, pos);
      EntryEncoding(items, isArray, i);
      InsideTrans(b, c, buf[..], off, len, off, len);
      if !done {
        return false, 0;
      }
      SpliceAfter(b, off + 4, EncodeItems(Prefix(items, i), isArray), EncodeEntry(Prefix(items, i), EntryAt(items, i).key, EntryAt(items, i).value, isArray));
      pos := pos + size;
      i := i + 1;
    }
    WholePrefix(items);
    if pos >= len {
      return false, 0;
    }
    Put(buf, off + pos, [0 as char]);
    ghost var body := EncodeItems(items, isArray);
    SpliceAfter(b, off + 4, body, [0 as char]);
    pos := pos + 1;
    PutNumber(buf, off, Wrap(pos, 4), 4);
    ghost var head := LittleEndian(Wrap(pos, 4), 4);
    SpliceBefore(b, off, head, body + [0 as char]);
    assert head + (body + [0 as char]) == EncodeDocument(items, isArray);
    SpliceInside(b, off, EncodeDocument(items, isArray), off, len);
    return true, pos;
  }

  lemma NoEntries(items: Items, isArray: bool)
    ensures Prefix(items, 0) == Nothing && EncodeItems(Nothing, isArray) == ""
  {
  }

  lemma EntryEncoding(items: Items, isArray: bool, i: nat)
    requires i < Count(items)
    ensures var e := EntryAt(items, i);
            && EncodeItems(Prefix(items, i + 1), isArray) == EncodeItems(Prefix(items, i), isArray) + EncodeEntry(Prefix(items, i), e.key, e.value, isArray)
    ensures |EncodeItems(Prefix(items, i + 1), isArray)| <= |EncodeItems(items, isArray)|
  {
    hide EncodeEntry, Prefix;
    var e := EntryAt(items, i);
    EncodePrefix(items, isArray, i + 1);
  }

  /** The type, the key and the value of one entry, at `pos` bytes into the document. */
  method SerializeEntry(items: Items, i: nat, isArray: bool, buf: array<char>, off: nat, len: nat, pos: nat) returns (ok: bool, size: nat)
    requires off + len <= buf.Length && i < Count(items)
    modifies buf
    ensures var e := EntryAt(items, i); var entry := EncodeEntry(Prefix(items, i), e.key, e.value, isArray);
            && (ok ==> pos + |entry| <= len && size == |entry| && buf[..] == Splice(old(buf[..]), off + pos, entry))
            && (!ok ==> pos + |entry| >= len)
    ensures Inside(old(buf[..]), buf[..], off, len)
    decreases items, 0, 0
  {
    hide EncodeValue, Splice, Inside, Prefix, Decimal;
    var e := EntryAt(items, i);
    var key := if isArray then Index(i) else e.key;
    ghost var b := buf[..];
    InsideSame(b, off, len);
    size, ok := 0, false;
    if pos + 1 >= len {
      return;
    }
    Put(buf, off + pos, [TypeByte(e.value)]);
    SpliceInside(b, off + pos, [TypeByte(e.value)], off, len);
    if pos + 1 + |key| + 1 >= len {
      return;
    }
    ghost var k := key + [0 as char];
    Put(buf, off + pos + 1, key + [0 as char]);
    SpliceAfter(b, off + pos, [TypeByte(e.value)], k);
    ghost var front := [TypeByte(e.value)] + k;
    SpliceInside(b, off + pos, front, off, len);
    ghost var c := buf[..];
    var at := pos + |key| + 2;
    var n;
    ok, n := SerializeValue(e.value, buf, off + at, len - at);
    InsideTrans(b, c, buf[..], off, len, off + at, len - at);
    if ok {
      SpliceAfter(b, off + pos, front, EncodeValue(e.value));
      assert front + EncodeValue(e.value) == EncodeEntry(Prefix(items, i), e.key, e.value, isArray);
    }
    size := |key| + 2 + n;
  }

  // ---------------------------------------------------------------------
  // Reading

  /** Position of the first zero byte, or end. */
  method ScanZero(buf: array<char>, pos: nat, end: nat) returns (r: nat)
    requires pos <= end <= buf.Length
    ensures pos <= r <= end && IsCString(buf[..][pos..r]) && (r < end ==> buf[r] as nat == 0)
    ensures FindZero(buf[..], pos, end) == if r < end then Some(r) else None
  {
    r := pos;
    while r < end && buf[r] as nat != 0
      invariant pos <= r <= end && forall i :: pos <= i < r ==> buf[i] as nat != 0
      invariant FindZero(buf[..], pos, end) == FindZero(buf[..], r, end)
    {
      r := r + 1;
    }
    assert forall i :: 0 <= i < r - pos ==> buf[..][pos..r][i] == buf[pos + i];
  }

  method ReadNumber(buf: array<char>, pos: nat, width: nat) returns (n: nat)
    requires pos + width <= buf.Length
    ensures n == Unsigned(buf[..][pos..pos + width])
  {
    var i := width;
    n := 0;
    assert buf[..][pos + width..pos + width] == "";
    while i > 0
      invariant 0 <= i <= width && n == Unsigned(buf[..][pos + i..pos + width])
    {
      i := i - 1;
      ghost var s := buf[..][pos + i..pos + width];
      assert s[0] == buf[pos + i] && s[1..] == buf[..][pos + i + 1..pos + width];
      n := buf[pos + i] as nat + 256 * n;
    }
  }

  method DeserializeValue(buf: array<char>, kind: nat, pos: nat, end: nat) returns (r: Option<Read<Value>>)
    requires pos <= end <= buf.Length
    ensures r == DecodeValue(buf[..], kind, pos, end)
    decreases end - pos, 1
  {
    hide Unsigned, DecodeDocument, UpToZero;
    r := None;
    if kind == 1 || kind == 18 {
      if pos + 8 > end {
        return;
      }
      var u := ReadNumber(buf, pos, 8);
      r := Some(Read(if kind == 1 then Number(u) else Int64(Signed(u, 8)), 8));
    } else if kind == 2 {
      r := DeserializeString(buf, pos, end);
    } else if kind == 8 {
      if pos + 1 <= end {
        r := Some(Read(Bool(buf[pos] as nat != 0), 1));
      }
    } else if kind == 10 {
      r := Some(Read(Null, 0));
    } else if kind == 3 || kind == 4 {
      var d := DeserializeDocument(buf, pos, end - pos, kind == 4);
      if d.Some? {
        r := Some(Read(if kind == 4 then Array(d.value.value) else Object(d.value.value), d.value.size));
      }
    }
  }

  method DeserializeString(buf: array<char>, pos: nat, end: nat) returns (r: Option<Read<Value>>)
    requires pos <= end <= buf.Length
    ensures r == DecodeValue(buf[..], 2, pos, end)
  {
    hide Unsigned, UpToZero;
    if pos + 4 > end {
      return None;
    }
    var u := ReadNumber(buf, pos, 4);
    var len := Signed(u, 4);
    if len < 1 || pos + 4 + len > end {
      return None;
    }
    var s := ReadText(buf, pos + 4, pos + 4 + len - 1);
    if |s| == 0 || |s| >= MAX_VALUE_LEN {
      return None;
    }
    return Some(Read(Str(s), 4 + len));
  }

  method DeserializeDocument(buf: array<char>, off: nat, len: nat, isArray: bool) returns (r: Option<Read<Items>>)
    requires off + len <= buf.Length
    ensures r == DecodeDocument(buf[..], off, len, isArray)
    decreases len, 0
  {
    hide Unsigned, DecodeItems;
    if len < 5 {
      return None;
    }
    var u := ReadNumber(buf, off, 4);
    var size := Signed(u, 4);
    if size < 5 || size > len {
      return None;
    }
    var items := DeserializeItems(buf, off + 4, off + size, isArray);
    return if items.None? then None else Some(Read(items.value, size));
  }

  method DeserializeEntry(buf: array<char>, pos: nat, end: nat, items: Items, isArray: bool) returns (r: Option<Read<Items>>)
    requires pos < end <= buf.Length
    ensures r == DecodeEntry(buf[..], pos, end, items, isArray)
    decreases end - pos, 2
  {
    hide DecodeValue, FindZero, UpToZero, AddEntry;
    var zero := ScanZero(buf, pos + 1, end);
    if zero == end {
      return None;
    }
    var key := buf[..][pos + 1..zero];
    UpToZeroIs(key);
    var value := DeserializeValue(buf, buf[pos] as nat, zero + 1, end);
    if value.None? {
      return None;
    }
    var more := AddEntry(items, key, value.value.value, isArray);
    return if more.None? then None else Some(Read(more.value, zero + 1 + value.value.size - pos));
  }

  method DeserializeItems(buf: array<char>, start: nat, end: nat, isArray: bool) returns (r: Option<Items>)
    requires end <= buf.Length
    ensures r == DecodeItems(buf[..], start, end, Nothing, isArray)
    decreases end - start, 3
  {
    hide DecodeEntry;
    ghost var b := buf[..];
    var pos, items := start, Nothing;
    while pos + 1 < end
      invariant start <= pos && DecodeItems(b, pos, end, items, isArray) == DecodeItems(b, start, end, Nothing, isArray)
      decreases end - pos
    {
      if buf[pos] as nat == 0 {
        pos := pos + 1;
        break;
      }
      var entry := DeserializeEntry(buf, pos, end, items, isArray);
      if entry.None? {
        return None;
      }
      items := entry.value.value;
      pos := pos + entry.value.size;
    }
    return if pos + 1 == end then Some(items) else None;
  }

  /** The public pair: a tree that fits in a document and in the buffer survives both. */
  method StoreAndLoad(fields: Items, buf: array<char>) returns (ok: bool, r: Option<Items>)
    requires Storable(Object(fields)) && |EncodeDocument(fields, false)| < 0x8000_0000
    modifies buf
    ensures ok <==> |EncodeDocument(fields, false)| <= buf.Length
    ensures ok ==> r == Some(fields)
  {
    hide EncodeDocument, StorableItems, DecodeDocument, Unsigned;
    var written;
    ok, written := SerializeDocument(fields, false, buf, 0, buf.Length);
    if !ok {
      return false, None;
    }
    SpliceHolds(old(buf[..]), 0, EncodeDocument(fields, false));
    DocumentDecodes(buf[..], fields, false, 0, written);
    var d := DeserializeDocument(buf, 0, written, false);
    r := if d.Some? && d.value.size == written then Some(d.value.value) else None;
  }
}
