/** The format of binary documents, by the bytes at positions and in literals, and that what is written has it. */
module BsonFormat {
  import opened Text
  import opened Numerals
  import opened Dict
  import opened BsonSpec

  /** Every byte times 256 to the power of its place, the first place being k. */
  ghost function LittleEndianSum(s: string, k: nat): nat {
    if s == "" then 0 else s[0] as nat * Power(256, k) + LittleEndianSum(s[1..], k + 1)
  }

  ghost predicate IsNumberAt(b: string, i: nat, width: nat, n: int) {
    i + width <= |b| && LittleEndianSum(b[i..i + width], 0) == n
  }

  ghost function TypeNumber(v: Value): int {
    match v
    case Number(_) => 1
    case Str(_) => 2
    case Object(_) => 3
    case Array(_) => 4
    case Bool(_) => 8
    case Null => 10
    case Int64(_) => 18
  }

  ghost predicate ValueAt(b: string, i: nat, j: nat, v: Value)
    requires i <= j <= |b|
    decreases v, 1
  {
    match v
    case Null => j == i
    case Bool(yes) => j == i + 1 && b[i] as int == if yes then 1 else 0
    case Number(bits) => j == i + 8 && IsNumberAt(b, i, 8, bits)
    case Int64(n) => j == i + 8 && IsNumberAt(b, i, 8, if n < 0 then 18446744073709551616 + n else n)
    case Str(s) => j == i + 4 + |s| + 1 && IsNumberAt(b, i, 4, |s| + 1) && Holds(b, i + 4, s) && b[j - 1] as int == 0
    case Array(items) => DocumentAt(b, i, j, items, true)
    case Object(fields) => DocumentAt(b, i, j, fields, false)
  }

  /** The size of all of it, the entries, a zero byte. */
  ghost predicate DocumentAt(b: string, i: nat, j: nat, items: Items, isArray: bool)
    requires i <= j <= |b|
    decreases items, 1
  {
    i + 5 <= j && IsNumberAt(b, i, 4, j - i) && b[j - 1] as int == 0 && ItemsAt(b, i + 4, j - 1, items, isArray)
  }

  ghost predicate ItemsAt(b: string, i: nat, j: nat, items: Items, isArray: bool)
    requires i <= j <= |b|
    decreases items, 0
  {
    match items
    case Nothing => i == j
    case More(init, key, value) =>
      exists k, z :: i <= k < z < j && ItemsAt(b, i, k, init, isArray) && HeadAt(b, k, z, value, if isArray then "" else key, Count(init), isArray)
                     && ValueFrom(b, z, j, value)
  }

  ghost predicate ValueFrom(b: string, z: nat, j: nat, value: Value)
    requires z < j <= |b|
    decreases value, 2
  {
    ValueAt(b, z + 1, j, value)
  }

  /** The type, the key and a zero byte; the key of an element is its position in decimal digits. */
  ghost predicate HeadAt(b: string, k: nat, z: nat, value: Value, key: string, position: nat, isArray: bool) {
    && k < z < |b| && b[k] as int == TypeNumber(value) && b[z] as int == 0
    && if isArray then k + 1 < z && Numeral(b[k + 1..z], 10, position) && (b[k + 1] == '0' ==> position == 0 && z == k + 2)
       else b[k + 1..z] == key
  }

  // ---------------------------------------------------------------------
  // What is written has the format

  lemma {:induction false} SumIs(s: string, k: nat)
    ensures LittleEndianSum(s, k) == Power(256, k) * Unsigned(s)
  {
    if s != "" {
      SumIs(s[1..], k + 1);
      var p, c, u := Power(256, k), s[0] as nat, Unsigned(s[1..]);
      assert 256 * p * u == p * (256 * u);
      assert p * (c + 256 * u) == p * c + p * (256 * u);
    }
  }

  lemma {:induction false} PowerIs(k: nat)
    ensures Power(256, k) == Pow256(k)
  {
    if k > 0 {
      PowerIs(k - 1);
    }
  }

  lemma NumberWritten(b: string, i: nat, n: nat, width: nat)
    requires Holds(b, i, LittleEndian(n, width)) && n < Power(256, width)
    ensures IsNumberAt(b, i, width, n)
  {
    hide LittleEndian, Unsigned;
    PowerIs(width);
    LittleEndianUnsigned(n, width);
    SumIs(LittleEndian(n, width), 0);
    assert Power(256, 0) == 1;
  }

  lemma Powers()
    ensures Power(256, 4) == 4294967296 && Power(256, 8) == 18446744073709551616
    ensures Pow256(4) == 4294967296 && Pow256(8) == 18446744073709551616
  {
    PowerIs(4);
    PowerIs(8);
    assert Power(256, 2) == 65536;
    assert Power(256, 4) == 4294967296;
    assert Power(256, 6) == 281474976710656;
  }

  lemma StringWritten(b: string, i: nat, s: CString)
    requires |s| < 20000000 && Holds(b, i, EncodeValue(Str(s)))
    ensures var j := i + |EncodeValue(Str(s))|; j <= |b| && ValueAt(b, i, j, Str(s))
  {
    hide Holds, LittleEndian, IsNumberAt;
    Powers();
    var n := LittleEndian(|s| + 1, 4);
    assert EncodeValue(Str(s)) == n + s + [0 as char];
    HoldsTwo(b, i, n + s, [0 as char]);
    HoldsTwo(b, i, n, s);
    HoldsIs(b, i + |n + s|, [0 as char]);
    assert b[i + |n + s|] == b[i + |n + s|..i + |n + s| + 1][0];
    NumberWritten(b, i, |s| + 1, 4);
  }

  lemma {:induction false} ValueWritten(b: string, i: nat, v: Value)
    requires Storable(v) && |EncodeValue(v)| < 0x1_0000_0000 && Holds(b, i, EncodeValue(v))
    ensures i + |EncodeValue(v)| <= |b| && ValueAt(b, i, i + |EncodeValue(v)|, v)
    decreases v, 1
  {
    hide Holds, LittleEndian, IsNumberAt, EncodeDocument, DocumentAt;
    HoldsIs(b, i, EncodeValue(v));
    Powers();
    match v {
      case Null =>
      case Bool(_) => assert b[i] == b[i..i + 1][0];
      case Number(bits) => NumberWritten(b, i, bits, 8);
      case Int64(n) => NumberWritten(b, i, Wrap(n, 8), 8);
      case Str(s) => StringWritten(b, i, s);
      case Array(items) => DocumentWritten(b, i, items, true);
      case Object(fields) => DocumentWritten(b, i, fields, false);
    }
  }

  /** Every document that is written has the format, wherever it stands. */
  lemma {:induction false} DocumentWritten(b: string, i: nat, items: Items, isArray: bool)
    requires StorableItems(items, isArray) && |EncodeDocument(items, isArray)| < 0x1_0000_0000 && Holds(b, i, EncodeDocument(items, isArray))
    ensures var j := i + |EncodeDocument(items, isArray)|; j <= |b| && DocumentAt(b, i, j, items, isArray)
    decreases items, 1
  {
    hide Holds, LittleEndian, IsNumberAt, EncodeItems, ItemsAt;
    Powers();
    var body := EncodeItems(items, isArray);
    var n := LittleEndian(|body| + 5, 4);
    assert EncodeDocument(items, isArray) == n + body + [0 as char];
    HoldsTwo(b, i, n + body, [0 as char]);
    HoldsTwo(b, i, n, body);
    HoldsIs(b, i + |n + body|, [0 as char]);
    assert b[i + |n + body|] == b[i + |n + body|..i + |n + body| + 1][0];
    NumberWritten(b, i, |body| + 5, 4);
    ItemsWritten(b, i + 4, items, isArray);
  }

  lemma HeadWritten(b: string, k: nat, init: Items, key: CString, value: Value, isArray: bool)
    requires Holds(b, k, [TypeByte(value)] + KeyOf(init, key, isArray) + [0 as char])
    ensures HeadAt(b, k, k + 1 + |KeyOf(init, key, isArray)|, value, if isArray then "" else key, Count(init), isArray)
  {
    hide Holds, Numeral, Decimal;
    var t, name := [TypeByte(value)], KeyOf(init, key, isArray);
    HoldsIs(b, k, t + name + [0 as char]);
    HoldsTwo(b, k, t + name, [0 as char]);
    HoldsTwo(b, k, t, name);
    HoldsIs(b, k, t);
    HoldsIs(b, k + 1, name);
    HoldsIs(b, k + |t + name|, [0 as char]);
    var z := k + 1 + |name|;
    assert b[k] == b[k..k + 1][0] && b[z] == b[z..z + 1][0];
    if isArray {
      PrintIntDenotes(Count(init));
      assert b[k + 1] == b[k + 1..z][0];
    }
  }

  lemma {:induction false} ItemsWritten(b: string, i: nat, items: Items, isArray: bool)
    requires StorableItems(items, isArray) && |EncodeItems(items, isArray)| < 0x1_0000_0000 && Holds(b, i, EncodeItems(items, isArray))
    ensures var j := i + |EncodeItems(items, isArray)|; j <= |b| && ItemsAt(b, i, j, items, isArray)
    decreases items, 0
  {
    hide Holds, EncodeValue, HeadAt, ValueAt, KeyOf, Storable;
    HoldsIs(b, i, EncodeItems(items, isArray));
    if items.More? {
      var init, value := items.init, items.value;
      var before, head, text := EncodeItems(init, isArray), [TypeByte(value)] + KeyOf(init, items.key, isArray) + [0 as char], EncodeValue(value);
      assert EncodeItems(items, isArray) == before + (head + text);
      HoldsTwo(b, i, before, head + text);
      HoldsTwo(b, i + |before|, head, text);
      ItemsWritten(b, i, init, isArray);
      var k := i + |before|;
      var z := k + 1 + |KeyOf(init, items.key, isArray)|;
      HeadWritten(b, k, init, items.key, value, isArray);
      ValueWritten(b, z + 1, value);
      assert ValueFrom(b, z, z + 1 + |text|, value);
    }
  }
}
