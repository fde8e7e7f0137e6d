/** Trees of values as binary documents, and how such documents are read.

    Strings stand for sequences of bytes. */
module BsonSpec {
  import opened Text
  import opened Dict

  // ---------------------------------------------------------------------
  // Little-endian numbers

  function Byte(n: nat): char { (n % 256) as char }

  function LittleEndian(n: nat, width: nat): (r: string)
    ensures |r| == width
  {
    if width == 0 then "" else [Byte(n)] + LittleEndian(n / 256, width - 1)
  }

  function Unsigned(b: string): nat { if b == "" then 0 else b[0] as nat + 256 * Unsigned(b[1..]) }

  function Pow256(k: nat): (r: nat)
    ensures r > 0
  {
    if k == 0 then 1 else 256 * Pow256(k - 1)
  }

  lemma {:induction false} LittleEndianUnsigned(n: nat, width: nat)
    requires n < Pow256(width)
    ensures Unsigned(LittleEndian(n, width)) == n
  {
    if width > 0 {
      LittleEndianUnsigned(n / 256, width - 1);
      assert LittleEndian(n, width)[1..] == LittleEndian(n / 256, width - 1);
    }
  }

  /** Two's complement. */
  function Wrap(n: int, width: nat): nat { n % Pow256(width) }

  function Signed(u: nat, width: nat): int { if 2 * u >= Pow256(width) then u - Pow256(width) else u }

  // ---------------------------------------------------------------------
  // Writing

  function TypeByte(v: Value): char {
    match v
    case Null => 10 as char
    case Bool(_) => 8 as char
    case Number(_) => 1 as char
    case Int64(_) => 18 as char
    case Str(_) => 2 as char
    case Array(_) => 4 as char
    case Object(_) => 3 as char
  }

  function KeyOf(init: Items, key: CString, isArray: bool): CString { if isArray then Index(Count(init)) else key }

  function Index(n: nat): CString {
    DecimalIsCString(n);
    Decimal(n)
  }

  lemma DecimalIsCString(n: nat)
    ensures IsCString(Decimal(n))
  {
    assert forall i :: 0 <= i < |Decimal(n)| ==> Decimal(n)[i] in Decimal(n);
  }

  function EncodeValue(v: Value): string
    decreases v, 1
  {
    match v
    case Null => ""
    case Bool(b) => [if b then 1 as char else 0 as char]
    case Number(bits) => LittleEndian(bits, 8)
    case Int64(n) => LittleEndian(Wrap(n, 8), 8)
    case Str(s) => LittleEndian(Wrap(|s| + 1, 4), 4) + s + [0 as char]
    case Array(items) => EncodeDocument(items, true)
    case Object(fields) => EncodeDocument(fields, false)
  }

  function EncodeEntry(init: Items, key: CString, value: Value, isArray: bool): string
    decreases value, 2
  {
    [TypeByte(value)] + KeyOf(init, key, isArray) + [0 as char] + EncodeValue(value)
  }

  function EncodeItems(items: Items, isArray: bool): string
    decreases items, 0
  {
    match items
    case Nothing => ""
    case More(init, key, value) => EncodeItems(init, isArray) + EncodeEntry(init, key, value, isArray)
  }

  /** Its own length, the entries, a zero byte. */
  function EncodeDocument(items: Items, isArray: bool): string
    decreases items, 1
  {
    var body := EncodeItems(items, isArray);
    LittleEndian(Wrap(|body| + 5, 4), 4) + body + [0 as char]
  }

  // ---------------------------------------------------------------------
  // Reading

  /** Position of the zero byte at or after pos and before end. */
  function FindZero(b: string, pos: nat, end: nat): (r: Option<nat>)
    requires end <= |b|
    ensures r.Some? ==> pos <= r.value < end && b[r.value] as nat == 0
    ensures forall i :: pos <= i < (if r.Some? then r.value else end) ==> b[i] as nat != 0
    decreases end - pos
  {
    if pos >= end then None else if b[pos] as nat == 0 then Some(pos) else FindZero(b, pos + 1, end)
  }

  datatype Read<T> = Read(value: T, size: nat)

  /** The value of the given type at pos, and how many bytes it takes. */
  function DecodeValue(b: string, kind: nat, pos: nat, end: nat): Option<Read<Value>>
    requires pos <= end <= |b|
    decreases end - pos, 1
  {
    if kind == 1 || kind == 18 then
      if pos + 8 > end then None
      else
        var u := Unsigned(b[pos..pos + 8]);
        Some(Read(if kind == 1 then Number(u) else Int64(Signed(u, 8)), 8))
    else if kind == 2 then
      if pos + 4 > end then None
      else
        var len := Signed(Unsigned(b[pos..pos + 4]), 4);
        if len < 1 || pos + 4 + len > end then None
        else match ReadString(b[pos + 4..pos + 4 + len - 1])
          case None => None
          case Some(v) => Some(Read(v, 4 + len))
    else if kind == 8 then
      if pos + 1 > end then None else Some(Read(Bool(b[pos] as nat != 0), 1))
    else if kind == 10 then Some(Read(Null, 0))
    else if kind == 3 || kind == 4 then
      match DecodeDocument(b, pos, end - pos, kind == 4)
      case None => None
      case Some(r) => Some(Read(if kind == 4 then Array(r.value) else Object(r.value), r.size))
    else None
  }

  /** The key and the value after a type byte, added to the entries before. */
  function DecodeEntry(b: string, pos: nat, end: nat, items: Items, isArray: bool): (r: Option<Read<Items>>)
    requires pos < end <= |b|
    ensures r.Some? ==> r.value.size >= 2
    decreases end - pos, 2
  {
    match FindZero(b, pos + 1, end)
    case None => None
    case Some(zero) =>
      match DecodeValue(b, b[pos] as nat, zero + 1, end)
      case None => None
      case Some(r) =>
        match AddEntry(items, UpToZero(b[pos + 1..zero]), r.value, isArray)
        case None => None
        case Some(more) => Some(Read(more, zero + 1 + r.size - pos))
  }

  function DecodeItems(b: string, pos: nat, end: nat, items: Items, isArray: bool): Option<Items>
    requires end <= |b|
    decreases end - pos, 3
  {
    if pos + 1 < end then
      if b[pos] as nat == 0 then (if pos + 2 == end then Some(items) else None)
      else match DecodeEntry(b, pos, end, items, isArray)
        case None => None
        case Some(r) => DecodeItems(b, pos + r.size, end, r.value, isArray)
    else if pos + 1 == end then Some(items) else None
  }

  /** A document in the `len` bytes at off. */
  function DecodeDocument(b: string, off: nat, len: nat, isArray: bool): (r: Option<Read<Items>>)
    requires off + len <= |b|
    ensures r.Some? ==> r.value.size <= len
    decreases len, 0
  {
    if len < 5 then None
    else
      var size := Signed(Unsigned(b[off..off + 4]), 4);
      if size < 5 || size > len then None
      else match DecodeItems(b, off + 4, off + size, Nothing, isArray)
        case None => None
        case Some(items) => Some(Read(items, size))
  }

  /** A whole buffer. */
  function Decode(b: string): Option<Value> {
    match DecodeDocument(b, 0, |b|, false)
    case None => None
    case Some(r) => if r.size == |b| then Some(Object(r.value)) else None
  }
}
