/** Parsing what was printed gives the same tree. */
module DictJsonRoundTrip {
  import opened Text
  import opened Dict
  import opened DictJsonSpec
  import opened DictJsonGrammar
  import opened Numerals

  /** Numbers are printed as short numerals. */
  ghost predicate Numeric(v: Value, numbers: Numbers)
    decreases v, 1
  {
    match v
    case Number(bits) => |numbers.show(bits)| < 64 && exists p :: IsNumber(numbers.show(bits), p)
    case Array(items) => NumericIn(items, numbers)
    case Object(fields) => NumericIn(fields, numbers)
    case _ => true
  }

  ghost predicate NumericIn(items: Items, numbers: Numbers)
    decreases items, 0
  {
    items.More? ==> NumericIn(items.init, numbers) && Numeric(items.value, numbers)
  }

  /** What a tree becomes: all numbers are those of the C library, and a long integer that such a number may not hold
      is a string of its digits. */
  ghost function Reread(v: Value, numbers: Numbers): Value
    decreases v, 1
  {
    match v
    case Number(bits) => Number(numbers.read(numbers.show(bits)))
    case Int64(n) =>
      if -9007199254740991 <= n <= 9007199254740991 then Number(numbers.read(PrintInt(n)))
      else (PrintIntIsText(n); Str(PrintInt(n)))
    case Array(items) => Array(RereadItems(items, numbers))
    case Object(fields) => Object(RereadItems(fields, numbers))
    case _ => v
  }

  ghost function RereadItems(items: Items, numbers: Numbers): Items
    decreases items, 0
  {
    match items
    case Nothing => Nothing
    case More(init, key, value) => More(RereadItems(init, numbers), key, Reread(value, numbers))
  }

  lemma PrintIntIsText(n: int)
    ensures IsCString(PrintInt(n))
  {
    var digits := Decimal(if n < 0 then -n else n);
    assert forall i :: 0 <= i < |digits| ==> digits[i] in digits;
    assert n < 0 ==> PrintInt(n) == ['-'] + digits;
  }

  lemma {:induction false} RereadKeys(items: Items, key: string, numbers: Numbers)
    ensures Has(RereadItems(items, numbers), key) == Has(items, key)
  {
    if items.More? {
      RereadKeys(items.init, key, numbers);
    }
  }

  predicate Visible(c: char) { !IsSpace(c) && c != '/' }

  // ---------------------------------------------------------------------
  // Blanks

  lemma SkipVisible(b: string, pos: nat)
    requires pos < |b| && Visible(b[pos])
    ensures SkipSpace(b, pos) == pos
  {
  }

  lemma {:induction false} SkipBlanks(b: string, pos: nat, n: nat)
    requires pos + n <= |b| && forall i :: pos <= i < pos + n ==> IsSpace(b[i])
    ensures SkipSpace(b, pos) == SkipSpace(b, pos + n)
    decreases n
  {
    if n > 0 {
      SkipBlanks(b, pos + 1, n - 1);
    }
  }

  lemma {:induction false} SpacesAreBlank(level: nat)
    ensures forall i :: 0 <= i < |Spaces(level)| ==> IsSpace(Spaces(level)[i])
  {
    if level > 0 {
      SpacesAreBlank(level - 1);
    }
  }

  lemma SkipLine(b: string, pos: nat, level: nat, pretty: bool)
    requires Holds(b, pos, NewLine(level, pretty))
    ensures pos + |NewLine(level, pretty)| <= |b| && SkipSpace(b, pos) == SkipSpace(b, pos + |NewLine(level, pretty)|)
  {
    var line := NewLine(level, pretty);
    SpacesAreBlank(level);
    forall i | pos <= i < pos + |line|
      ensures IsSpace(b[i])
    {
      assert b[i] == b[pos..pos + |line|][i - pos];
      assert line[i - pos] == (if i == pos then '\n' else Spaces(level)[i - pos - 1]);
    }
    SkipBlanks(b, pos, |line|);
  }

  // ---------------------------------------------------------------------
  // Strings

  lemma TwoChars(b: string, pos: nat, c: char, d: char)
    requires Holds(b, pos, [c, d])
    ensures pos + 2 <= |b| && b[pos] == c && b[pos + 1] == d
  {
    assert b[pos] == b[pos..pos + 2][0] && b[pos + 1] == b[pos..pos + 2][1];
  }

  lemma OneChar(b: string, pos: nat, c: char)
    requires Holds(b, pos, [c])
    ensures pos < |b| && b[pos] == c
  {
    assert b[pos] == b[pos..pos + 1][0];
  }

  lemma HexValue(d: nat)
    requires d < 16
    ensures IsHexDigit(HexChar(d)) && HexDigitValue(HexChar(d)) == d
  {
  }

  lemma ControlCode(b: string, pos: nat, c: char)
    requires c < ' ' && Holds(b, pos, "00" + [HexChar(c as nat / 16), HexChar(c as nat % 16)])
    ensures CodePoint(b, pos) == Some(c)
  {
    hide Holds;
    var x, y := HexChar(c as nat / 16), HexChar(c as nat % 16);
    var s := "00" + [x, y];
    HoldsIs(b, pos, s);
    HexValue(c as nat / 16);
    HexValue(c as nat % 16);
    forall i | pos <= i < pos + 4
      ensures IsHexDigit(b[i])
    {
      assert b[i] == s[i - pos];
    }
    FourDigits(s);
  }

  lemma FourDigits(s: string)
    requires |s| == 4 && forall c :: c in s ==> IsHexDigit(c)
    ensures Digits(s, 16) == ((HexDigitValue(s[0]) * 16 + HexDigitValue(s[1])) * 16 + HexDigitValue(s[2])) * 16 + HexDigitValue(s[3])
  {
    hide HexDigitValue;
    var s3, s2, s1 := s[..3], s[..2], s[..1];
    assert s3[..2] == s2 && s2[..1] == s1 && s1[..0] == "";
    assert Digits(s1, 16) == HexDigitValue(s[0]);
    assert Digits(s2, 16) == Digits(s1, 16) * 16 + HexDigitValue(s[1]);
    assert Digits(s3, 16) == Digits(s2, 16) * 16 + HexDigitValue(s[2]);
  }

  /** A printed character is read as itself. */
  lemma CharParses(b: string, pos: nat, c: char, text: string)
    requires Holds(b, pos, EscapeChar(c)) && c as nat != 0
    ensures pos + |EscapeChar(c)| <= |b| && ParseChars(b, pos, text) == ParseChars(b, pos + |EscapeChar(c)|, text + [c])
  {
    HoldsIs(b, pos, EscapeChar(c));
    hide Holds, ParseChars, CodePoint;
    if !NeedsEscape(c) {
      OneChar(b, pos, c);
      PlainStep(b, pos, text);
    } else if c == '"' || c == '\\' || c == 8 as char || c == 12 as char || c == '\n' || c == '\r' || c == '\t' {
      var d := EscapeChar(c)[1];
      assert EscapeChar(c) == ['\\', d];
      TwoChars(b, pos, '\\', d);
      EscapeStep(b, pos, text);
    } else {
      var hex := "00" + [HexChar(c as nat / 16), HexChar(c as nat % 16)];
      assert EscapeChar(c) == "" + ['\\', 'u'] + hex && EscapeChar(c) == ['\\', 'u'] + hex + "";
      HoldsPart(b, pos, "", ['\\', 'u'], hex);
      HoldsPart(b, pos, ['\\', 'u'], hex, "");
      TwoChars(b, pos, '\\', 'u');
      ControlCode(b, pos + 2, c);
      UnicodeStep(b, pos, text, c);
    }
  }

  lemma PlainStep(b: string, pos: nat, text: string)
    requires pos < |b| && !NeedsEscape(b[pos])
    ensures ParseChars(b, pos, text) == ParseChars(b, pos + 1, text + [b[pos]])
  {
  }

  lemma EscapeStep(b: string, pos: nat, text: string)
    requires pos + 2 <= |b| && b[pos] == '\\' && b[pos + 1] != 'u' && Unescape(b[pos + 1]).Some?
    ensures ParseChars(b, pos, text) == ParseChars(b, pos + 2, text + [Unescape(b[pos + 1]).value])
  {
  }

  lemma UnicodeStep(b: string, pos: nat, text: string, c: char)
    requires pos + 2 <= |b| && b[pos] == '\\' && b[pos + 1] == 'u' && CodePoint(b, pos + 2) == Some(c)
    ensures ParseChars(b, pos, text) == ParseChars(b, pos + 6, text + [c])
  {
    hide CodePoint;
  }

  lemma {:induction false} CharsParse(b: string, pos: nat, s: string)
    requires IsCString(s) && Holds(b, pos, Escape(s))
    ensures pos + |Escape(s)| <= |b| && ParseChars(b, pos, "") == ParseChars(b, pos + |Escape(s)|, s)
  {
    hide ParseChars, EscapeChar;
    HoldsIs(b, pos, Escape(s));
    hide Holds;
    if s != "" {
      var init, last := s[..|s| - 1], s[|s| - 1];
      HoldsTwo(b, pos, Escape(init), EscapeChar(last));
      CharsParse(b, pos, init);
      CharParses(b, pos + |Escape(init)|, last, init);
      assert s == init + [last];
    }
  }

  /** A printed string is read back. */
  lemma QuoteParses(b: string, pos: nat, s: string)
    requires IsCString(s) && Holds(b, pos, Quote(s))
    ensures pos + |Quote(s)| <= |b| && b[pos] == '"' && ParseChars(b, pos + 1, "") == Some(Parsed(s, pos + |Quote(s)|))
  {
    hide Escape, Holds;
    HoldsIs(b, pos, Quote(s));
    HoldsTwo(b, pos, "\"" + Escape(s), "\"");
    HoldsTwo(b, pos, "\"", Escape(s));
    OneChar(b, pos, '"');
    OneChar(b, pos + 1 + |Escape(s)|, '"');
    CharsParse(b, pos + 1, s);
  }

  // ---------------------------------------------------------------------
  // Values

  /** What follows a printed value. */
  ghost predicate Delimited(b: string, at: nat) { at < |b| ==> b[at] in ",]}\n" }

  lemma {:induction false} DecimalLength(n: nat, k: nat)
    requires k >= 1 && n < Power(10, k)
    ensures |Decimal(n)| <= k
  {
    if n >= 10 {
      assert Power(10, k) == 10 * Power(10, k - 1);
      assert Power(10, 0) == 1;
      DecimalLength(n / 10, k - 1);
    }
  }

  lemma PrintIntLength(n: int)
    requires -0x8000_0000_0000_0000 <= n < 0x8000_0000_0000_0000
    ensures 0 < |PrintInt(n)| <= 20
  {
    hide Decimal;
    PowersOfTen();
    DecimalLength(if n < 0 then -n else n, 19);
  }

  lemma PowersOfTen()
    ensures Power(10, 19) == 10000000000000000000
  {
    assert Power(10, 3) == 1000;
    assert Power(10, 6) == 1000000;
    assert Power(10, 9) == 1000000000;
    assert Power(10, 12) == 1000000000000;
    assert Power(10, 15) == 1000000000000000;
    assert Power(10, 18) == 1000000000000000000;
  }

  lemma DigitsRun(s: string)
    requires s != "" && forall c :: c in s ==> IsDigit(c)
    ensures DigitRun(s)
  {
    forall i | 0 <= i < |s|
      ensures DigitByte(s[i])
    {
      DigitTable(s[i]);
    }
  }

  lemma NoLeadingZero(n: nat)
    ensures Decimal(n)[0] == '0' ==> Decimal(n) == "0"
  {
    DecimalDigits(n);
  }

  lemma PrintIntIsNumber(n: int)
    ensures exists p :: IsNumber(PrintInt(n), p)
  {
    hide Decimal, DigitRun;
    var m := if n < 0 then -n else n;
    DigitsRun(Decimal(m));
    NoLeadingZero(m);
    var p := NumberParts(if n < 0 then "-" else "", Decimal(m), "", "");
    assert IsNumber(PrintInt(n), p);
  }

  lemma NumberVisible(s: string)
    requires exists p :: IsNumber(s, p)
    ensures s != "" && Visible(s[0]) && s[0] != ']' && s[0] != '}'
  {
    var p :| IsNumber(s, p);
    DigitTable(p.whole[0]);
    assert s[0] == if p.sign == "" then p.whole[0] else '-';
  }

  lemma NoneContinues(p: NumberParts, c: char)
    requires c in ",]}\n"
    ensures !Continues(p, c)
  {
    DigitTable(c);
  }

  /** The text of a number. */
  lemma NumeralParses(b: string, pos: nat, s: string, numbers: Numbers)
    requires |s| < 64 && (exists p :: IsNumber(s, p)) && Holds(b, pos, s) && Delimited(b, pos + |s|)
    ensures ParseValue(b, pos, numbers) == Some(Parsed(Number(numbers.read(s)), pos + |s|))
  {
    hide ParseValue, IsNumber, Continues;
    var p :| IsNumber(s, p);
    if pos + |s| < |b| {
      NoneContinues(p, b[pos + |s|]);
    }
    assert NumberAt(b, pos, pos + |s|, p);
    NumberRead(b, pos, pos + |s|, p, numbers);
  }

  lemma FirstVisible(v: Value, level: nat, pretty: bool, numbers: Numbers)
    requires Numeric(v, numbers)
    ensures var s := Print(v, level, pretty, numbers); s != "" && Visible(s[0]) && s[0] != ']' && s[0] != '}'
  {
    hide PrintItems, Escape, PrintInt, IsNumber, Numeric;
    if v.Number? {
      NumericNumber(v, numbers);
      NumberVisible(numbers.show(v.bits));
    } else if v.Int64? {
      PrintIntIsNumber(v.n);
      NumberVisible(PrintInt(v.n));
    }
  }

  lemma NumericNumber(v: Value, numbers: Numbers)
    requires v.Number? && Numeric(v, numbers)
    ensures |numbers.show(v.bits)| < 64 && exists p :: IsNumber(numbers.show(v.bits), p)
  {
  }

  lemma FirstAt(b: string, pos: nat, v: Value, level: nat, pretty: bool, numbers: Numbers)
    requires Numeric(v, numbers) && Holds(b, pos, Print(v, level, pretty, numbers))
    ensures pos < |b| && Visible(b[pos]) && b[pos] != ']' && b[pos] != '}'
  {
    hide Print, Numeric;
    FirstVisible(v, level, pretty, numbers);
    var s := Print(v, level, pretty, numbers);
    assert b[pos] == b[pos..pos + |s|][0];
  }

  lemma WordParses(b: string, pos: nat, v: Value, numbers: Numbers)
    requires (v.Null? || v.Bool?) && Holds(b, pos, Print(v, 0, false, numbers))
    ensures ParseValue(b, pos, numbers) == Some(Parsed(v, pos + |Print(v, 0, false, numbers)|))
  {
    var s := Print(v, 0, false, numbers);
    assert b[pos] == b[pos..pos + |s|][0];
    SkipVisible(b, pos);
  }

  lemma StringParses(b: string, pos: nat, s: CString, numbers: Numbers)
    requires 0 < |s| < MAX_VALUE_LEN && Holds(b, pos, Quote(s))
    ensures ParseValue(b, pos, numbers) == Some(Parsed(Str(s), pos + |Quote(s)|))
  {
    hide ParseChars, Quote, UpToZero;
    QuoteParses(b, pos, s);
    SkipVisible(b, pos);
    UpToZeroIs(s);
  }

  lemma IntParses(b: string, pos: nat, n: int, numbers: Numbers)
    requires -0x8000_0000_0000_0000 <= n < 0x8000_0000_0000_0000
    requires Holds(b, pos, Print(Int64(n), 0, false, numbers)) && Delimited(b, pos + |Print(Int64(n), 0, false, numbers)|)
    ensures ParseValue(b, pos, numbers) == Some(Parsed(Reread(Int64(n), numbers), pos + |Print(Int64(n), 0, false, numbers)|))
  {
    hide ParseValue, Quote, PrintInt, Delimited, Holds, IsNumber;
    PrintIntLength(n);
    PrintIntIsText(n);
    if -9007199254740991 <= n <= 9007199254740991 {
      PrintIntIsNumber(n);
      NumeralParses(b, pos, PrintInt(n), numbers);
    } else {
      StringParses(b, pos, PrintInt(n), numbers);
    }
  }

  lemma {:induction false} ValueParses(b: string, pos: nat, v: Value, level: nat, pretty: bool, numbers: Numbers)
    requires Storable(v) && Numeric(v, numbers) && Holds(b, pos, Print(v, level, pretty, numbers))
    requires Delimited(b, pos + |Print(v, level, pretty, numbers)|)
    ensures pos + |Print(v, level, pretty, numbers)| <= |b|
    ensures ParseValue(b, pos, numbers) == Some(Parsed(Reread(v, numbers), pos + |Print(v, level, pretty, numbers)|))
    decreases v, 1
  {
    hide Holds, Print, PrintBracketed, ParseValue, Storable, Numeric, StorableItems, NumericIn, Quote, Delimited, RereadItems;
    HoldsIs(b, pos, Print(v, level, pretty, numbers));
    PrintIs(v, level, pretty, numbers);
    match v {
      case Null => WordParses(b, pos, v, numbers);
      case Bool(_) => WordParses(b, pos, v, numbers);
      case Number(bits) =>
        NumericNumber(v, numbers);
        NumeralParses(b, pos, numbers.show(bits), numbers);
      case Int64(n) => IntParses(b, pos, n, numbers);
      case Str(s) => StringParses(b, pos, s, numbers);
      case Array(items) => BracketsParse(b, pos, items, true, level, pretty, numbers);
      case Object(fields) => BracketsParse(b, pos, fields, false, level, pretty, numbers);
    }
  }

  lemma PrintIs(v: Value, level: nat, pretty: bool, numbers: Numbers)
    requires Storable(v) && Numeric(v, numbers)
    ensures v.Null? || v.Bool? || v.Int64? ==> Print(v, level, pretty, numbers) == Print(v, 0, false, numbers)
    ensures v.Number? ==> Print(v, level, pretty, numbers) == numbers.show(v.bits)
    ensures v.Int64? ==> -0x8000_0000_0000_0000 <= v.n < 0x8000_0000_0000_0000
    ensures v.Str? ==> Print(v, level, pretty, numbers) == Quote(v.s) && 0 < |v.s| < MAX_VALUE_LEN
    ensures v.Array? ==> Print(v, level, pretty, numbers) == PrintBracketed(v.items, true, level, pretty, numbers)
                         && StorableItems(v.items, true) && NumericIn(v.items, numbers)
    ensures v.Object? ==> Print(v, level, pretty, numbers) == PrintBracketed(v.fields, false, level, pretty, numbers)
                          && StorableItems(v.fields, false) && NumericIn(v.fields, numbers)
  {
    hide PrintBracketed, Quote;
  }

  /** A key and its colon, up to the value. */
  lemma KeyParses(b: string, pos: nat, key: CString, pretty: bool)
    requires Holds(b, pos, PrintKey(key, false, pretty)) && pos + |PrintKey(key, false, pretty)| < |b|
    requires Visible(b[pos + |PrintKey(key, false, pretty)|])
    ensures b[pos] == '"' && SkipSpace(b, pos) == pos
    ensures var r := ParseChars(b, pos + 1, "");
            && r.Some? && r.value.value == key
            && SkipSpace(b, r.value.end) == r.value.end && CharAt(b, r.value.end, ':')
            && SkipSpace(b, r.value.end + 1) == pos + |PrintKey(key, false, pretty)|
  {
    hide Holds, Quote, ParseChars;
    var k, q, rest := PrintKey(key, false, pretty), Quote(key), if pretty then " " else "";
    HoldsTwo(b, pos, q + ":", rest);
    HoldsTwo(b, pos, q, ":");
    QuoteParses(b, pos, key);
    SkipVisible(b, pos);
    OneChar(b, pos + |q|, ':');
    SkipVisible(b, pos + |q|);
    SkipVisible(b, pos + |k|);
    if pretty {
      OneChar(b, pos + |q| + 1, ' ');
      SkipBlanks(b, pos + |q| + 1, 1);
    }
  }

  lemma EntryParses(b: string, pos: nat, init: Items, key: CString, value: Value, isArray: bool, level: nat, pretty: bool, numbers: Numbers)
    requires Storable(value) && Numeric(value, numbers) && StorableKey(init, key, isArray)
    requires Holds(b, pos, PrintKey(key, isArray, pretty) + Print(value, level, pretty, numbers))
    requires Delimited(b, pos + |PrintKey(key, isArray, pretty)| + |Print(value, level, pretty, numbers)|)
    ensures var n := |PrintKey(key, isArray, pretty)| + |Print(value, level, pretty, numbers)|;
            && pos + n <= |b|
            && ParseEntry(b, pos, RereadItems(init, numbers), isArray, numbers) ==
               Some(Parsed(RereadItems(More(init, key, value), numbers), pos + n))
    decreases value, 2
  {
    hide Holds, Print, PrintKey, ParseValue, ParseChars, Storable, Numeric, UpToZero, SkipSpace, Delimited, Reread;
    var k, t := PrintKey(key, isArray, pretty), Print(value, level, pretty, numbers);
    HoldsTwo(b, pos, k, t);
    FirstAt(b, pos + |k|, value, level, pretty, numbers);
    ValueParses(b, pos + |k|, value, level, pretty, numbers);
    RereadKeys(init, key, numbers);
    if isArray {
      NoKey(key, pretty);
      SkipVisible(b, pos);
    } else {
      KeyParses(b, pos, key, pretty);
      UpToZeroIs(key);
    }
  }

  /** An entry begins with a quote or with its value. */
  lemma EntryStarts(b: string, pos: nat, key: CString, value: Value, isArray: bool, level: nat, pretty: bool, numbers: Numbers)
    requires Numeric(value, numbers) && Holds(b, pos, PrintKey(key, isArray, pretty) + Print(value, level, pretty, numbers))
    ensures pos < |b| && Visible(b[pos]) && b[pos] != ']' && b[pos] != '}'
  {
    hide Holds, Print, PrintKey, Numeric, Visible;
    var k, t := PrintKey(key, isArray, pretty), Print(value, level, pretty, numbers);
    HoldsTwo(b, pos, k, t);
    FirstAt(b, pos + |k|, value, level, pretty, numbers);
    if isArray {
      NoKey(key, pretty);
    } else {
      KeyStarts(b, pos, key, pretty);
    }
  }

  lemma KeyStarts(b: string, pos: nat, key: CString, pretty: bool)
    requires Holds(b, pos, PrintKey(key, false, pretty))
    ensures pos < |b| && b[pos] == '"' && Visible(b[pos])
  {
    hide Escape;
    var k := PrintKey(key, false, pretty);
    HoldsIs(b, pos, k);
    assert b[pos] == b[pos..pos + |k|][0];
  }

  lemma NoKey(key: CString, pretty: bool)
    ensures PrintKey(key, true, pretty) == ""
  {
  }

  /** One round of the parsing loop, when another entry follows. */
  lemma NextItem(b: string, pos: nat, items: Items, isArray: bool, numbers: Numbers, e: Parsed<Items>)
    requires pos <= |b| && ParseEntry(b, pos, items, isArray, numbers) == Some(e) && CharAt(b, e.end, ',')
    ensures ParseItems(b, pos, items, isArray, numbers) == ParseItems(b, e.end + 1, e.value, isArray, numbers)
  {
    hide ParseEntry;
    SkipVisible(b, e.end);
  }

  lemma LastItem(b: string, pos: nat, items: Items, isArray: bool, numbers: Numbers, e: Parsed<Items>, level: nat, pretty: bool)
    requires pos <= |b| && ParseEntry(b, pos, items, isArray, numbers) == Some(e)
    requires Holds(b, e.end, NewLine(level, pretty)) && Holds(b, e.end + |NewLine(level, pretty)|, Close(isArray))
    ensures ParseItems(b, pos, items, isArray, numbers) == Some(Parsed(e.value, e.end + |NewLine(level, pretty)| + 1))
  {
    hide ParseEntry, NewLine, Holds;
    var line, close := NewLine(level, pretty), Close(isArray);
    SkipLine(b, e.end, level, pretty);
    OneChar(b, e.end + |line|, close[0]);
    SkipVisible(b, e.end + |line|);
  }

  /** All entries but the last one have been read when the last one begins. */
  lemma {:induction false} ItemsParse(b: string, pos: nat, items: Items, isArray: bool, level: nat, pretty: bool, numbers: Numbers)
    requires items.More? && StorableItems(items, isArray) && NumericIn(items, numbers)
    requires Holds(b, pos, PrintItems(items, isArray, level, pretty, numbers))
    ensures var at := pos + |PrintItems(items.init, isArray, level, pretty, numbers)| + |Separator(items.init, level, pretty)|;
            && at <= |b|
            && ParseItems(b, pos, Nothing, isArray, numbers) == ParseItems(b, at, RereadItems(items.init, numbers), isArray, numbers)
    decreases items, 0
  {
    hide Holds, Print, PrintKey, ParseItems, ParseEntry, Storable, Numeric, NewLine, Visible, Reread, Delimited;
    var init := items.init;
    var p, sep := PrintItems(init, isArray, level, pretty, numbers), Separator(init, level, pretty);
    var entry := PrintKey(items.key, isArray, pretty) + Print(items.value, level + 1, pretty, numbers);
    HoldsTwo(b, pos, p + sep, entry);
    HoldsTwo(b, pos, p, sep);
    HoldsIs(b, pos + |p|, sep);
    if init.More? {
      ItemsParse(b, pos, init, isArray, level, pretty, numbers);
      CommaFollows(b, pos + |p|, level, pretty);
      ItemBefore(b, pos, init, isArray, level, pretty, numbers);
      CommaStep(b, pos + |PrintItems(init.init, isArray, level, pretty, numbers)| + |Separator(init.init, level, pretty)|,
                RereadItems(init.init, numbers), Parsed(RereadItems(init, numbers), pos + |p|), isArray, level, pretty, numbers);
    }
  }

  lemma CommaFollows(b: string, pos: nat, level: nat, pretty: bool)
    requires Holds(b, pos, "," + NewLine(level, pretty))
    ensures Delimited(b, pos)
  {
    hide NewLine, Holds;
    HoldsTwo(b, pos, ",", NewLine(level, pretty));
    OneChar(b, pos, ',');
  }

  /** One round of the parsing loop and the blanks before the next entry. */
  lemma CommaStep(b: string, pos: nat, items: Items, e: Parsed<Items>, isArray: bool, level: nat, pretty: bool, numbers: Numbers)
    requires pos <= |b| && ParseEntry(b, pos, items, isArray, numbers) == Some(e)
    requires Holds(b, e.end, "," + NewLine(level, pretty))
    ensures e.end + 1 + |NewLine(level, pretty)| <= |b|
    ensures ParseItems(b, pos, items, isArray, numbers) ==
            ParseItems(b, e.end + 1 + |NewLine(level, pretty)|, e.value, isArray, numbers)
  {
    hide Holds, ParseItems, ParseEntry, NewLine;
    HoldsTwo(b, e.end, ",", NewLine(level, pretty));
    OneChar(b, e.end, ',');
    NextItem(b, pos, items, isArray, numbers, e);
    SkipLine(b, e.end + 1, level, pretty);
    SameEntries(b, e.end + 1, e.end + 1 + |NewLine(level, pretty)|, e.value, isArray, numbers);
  }

  /** The last entry of a list that is followed by something. */
  lemma ItemBefore(b: string, pos: nat, items: Items, isArray: bool, level: nat, pretty: bool, numbers: Numbers)
    requires items.More? && StorableItems(items, isArray) && NumericIn(items, numbers)
    requires Holds(b, pos, PrintItems(items, isArray, level, pretty, numbers))
    requires Delimited(b, pos + |PrintItems(items, isArray, level, pretty, numbers)|)
    ensures var at, end := pos + |PrintItems(items.init, isArray, level, pretty, numbers)| + |Separator(items.init, level, pretty)|,
                           pos + |PrintItems(items, isArray, level, pretty, numbers)|;
            && at <= end <= |b|
            && ParseEntry(b, at, RereadItems(items.init, numbers), isArray, numbers) == Some(Parsed(RereadItems(items, numbers), end))
    decreases items, 0, 0
  {
    hide Holds, Print, PrintKey, ParseEntry, Storable, Numeric, NewLine, Reread, Delimited;
    var p, sep := PrintItems(items.init, isArray, level, pretty, numbers), Separator(items.init, level, pretty);
    var entry := PrintKey(items.key, isArray, pretty) + Print(items.value, level + 1, pretty, numbers);
    HoldsTwo(b, pos, p + sep, entry);
    EntryParses(b, pos + |p + sep|, items.init, items.key, items.value, isArray, level + 1, pretty, numbers);
  }

  lemma {:induction false} FirstItem(b: string, pos: nat, items: Items, isArray: bool, level: nat, pretty: bool, numbers: Numbers)
    requires items.More? && NumericIn(items, numbers)
    requires Holds(b, pos, PrintItems(items, isArray, level, pretty, numbers))
    ensures pos < |b| && Visible(b[pos]) && b[pos] != ']' && b[pos] != '}'
    decreases items, 1
  {
    hide Holds, Print, PrintKey, ParseEntry, Storable, Numeric, NewLine, Visible;
    var p, sep := PrintItems(items.init, isArray, level, pretty, numbers), Separator(items.init, level, pretty);
    var entry := PrintKey(items.key, isArray, pretty) + Print(items.value, level + 1, pretty, numbers);
    HoldsTwo(b, pos, p + sep, entry);
    if items.init.Nothing? {
      assert p + sep == "";
      EntryStarts(b, pos, items.key, items.value, isArray, level + 1, pretty, numbers);
    } else {
      HoldsTwo(b, pos, p, sep);
      FirstItem(b, pos, items.init, isArray, level, pretty, numbers);
    }
  }

  lemma BracketsParse(b: string, pos: nat, items: Items, isArray: bool, level: nat, pretty: bool, numbers: Numbers)
    requires StorableItems(items, isArray) && NumericIn(items, numbers)
    requires Holds(b, pos, PrintBracketed(items, isArray, level, pretty, numbers))
    ensures var end := pos + |PrintBracketed(items, isArray, level, pretty, numbers)|;
            && end <= |b|
            && ParseValue(b, pos, numbers) == Some(Parsed(if isArray then Array(RereadItems(items, numbers)) else Object(RereadItems(items, numbers)), end))
    decreases items, 3
  {
    hide Holds, PrintItems, NewLine, StorableItems, NumericIn, ParseBracketed, Reread;
    var open, line, body, close := Open(isArray), NewLine(level, pretty && items.More?), PrintItems(items, isArray, level, pretty, numbers), Close(isArray);
    HoldsIs(b, pos, PrintBracketed(items, isArray, level, pretty, numbers));
    HoldsTwo(b, pos, open + line + body + line, close);
    HoldsTwo(b, pos, open + line + body, line);
    HoldsTwo(b, pos, open + line, body);
    HoldsTwo(b, pos, open, line);
    OneChar(b, pos, open[0]);
    SkipVisible(b, pos);
    if items.Nothing? {
      NoItems(isArray, level, pretty, numbers);
      EmptyParses(b, pos + 1, isArray, numbers);
    } else {
      InsideParses(b, pos + 1, items, isArray, level, pretty, numbers);
    }
  }

  lemma EmptyParses(b: string, pos: nat, isArray: bool, numbers: Numbers)
    requires Holds(b, pos, Close(isArray))
    ensures pos < |b| && ParseBracketed(b, pos, isArray, numbers) == Some(Parsed(Nothing, pos + 1))
  {
    OneChar(b, pos, Close(isArray)[0]);
    SkipVisible(b, pos);
  }

  /** What stands between brackets that are not empty, with the closing one. */
  lemma InsideParses(b: string, pos: nat, items: Items, isArray: bool, level: nat, pretty: bool, numbers: Numbers)
    requires items.More? && StorableItems(items, isArray) && NumericIn(items, numbers)
    requires var line, body := NewLine(level, pretty), PrintItems(items, isArray, level, pretty, numbers);
             && Holds(b, pos, line) && Holds(b, pos + |line|, body) && Holds(b, pos + |line| + |body|, line)
             && Holds(b, pos + |line| + |body| + |line|, Close(isArray))
    ensures pos <= |b|
    ensures ParseBracketed(b, pos, isArray, numbers) ==
            Some(Parsed(RereadItems(items, numbers), pos + |NewLine(level, pretty)| + |PrintItems(items, isArray, level, pretty, numbers)| + |NewLine(level, pretty)| + 1))
    decreases items, 2
  {
    hide Holds, PrintItems, NewLine, StorableItems, NumericIn, ParseItems, ParseEntry, RereadItems, Delimited;
    var line, body := NewLine(level, pretty), PrintItems(items, isArray, level, pretty, numbers);
    SkipLine(b, pos, level, pretty);
    var at := pos + |line|;
    FirstItem(b, at, items, isArray, level, pretty, numbers);
    SkipVisible(b, at);
    ItemsParse(b, at, items, isArray, level, pretty, numbers);
    LineFollows(b, at + |body|, isArray, level, pretty);
    ItemBefore(b, at, items, isArray, level, pretty, numbers);
    LastItem(b, at + |PrintItems(items.init, isArray, level, pretty, numbers)| + |Separator(items.init, level, pretty)|,
             RereadItems(items.init, numbers), isArray, numbers, Parsed(RereadItems(items, numbers), at + |body|), level, pretty);
  }

  lemma LineFollows(b: string, pos: nat, isArray: bool, level: nat, pretty: bool)
    requires Holds(b, pos, NewLine(level, pretty)) && Holds(b, pos + |NewLine(level, pretty)|, Close(isArray))
    ensures Delimited(b, pos)
  {
    var line := NewLine(level, pretty);
    if pretty {
      assert b[pos] == b[pos..pos + |line|][0];
    } else {
      OneChar(b, pos, Close(isArray)[0]);
    }
  }

  lemma NoItems(isArray: bool, level: nat, pretty: bool, numbers: Numbers)
    ensures PrintItems(Nothing, isArray, level, pretty, numbers) == "" && NewLine(level, false) == ""
  {
  }

  /** The text of a tree, indented or not, is parsed as that tree with its numbers read again. */
  lemma TextReread(v: Value, pretty: bool, numbers: Numbers)
    requires Storable(v) && Numeric(v, numbers)
    ensures Parse(Print(v, 0, pretty, numbers), numbers) == Some(Reread(v, numbers))
  {
    hide Print, ParseValue, Storable, Numeric, Reread;
    var b := Print(v, 0, pretty, numbers);
    assert b[0..0 + |b|] == b;
    FirstVisible(v, 0, pretty, numbers);
    SkipVisible(b, 0);
    ValueParses(b, 0, v, 0, pretty, numbers);
  }

  /** No long integer, and every number is the one that the C library reads in what it prints of it. */
  ghost predicate Exact(v: Value, numbers: Numbers)
    decreases v, 1
  {
    match v
    case Number(bits) => numbers.read(numbers.show(bits)) == bits
    case Int64(_) => false
    case Array(items) => ExactIn(items, numbers)
    case Object(fields) => ExactIn(fields, numbers)
    case _ => true
  }

  ghost predicate ExactIn(items: Items, numbers: Numbers)
    decreases items, 0
  {
    items.More? ==> ExactIn(items.init, numbers) && Exact(items.value, numbers)
  }

  lemma {:induction false} RereadIff(v: Value, numbers: Numbers)
    ensures Reread(v, numbers) == v <==> Exact(v, numbers)
    decreases v, 1
  {
    match v {
      case Array(items) => RereadItemsIff(items, numbers);
      case Object(fields) => RereadItemsIff(fields, numbers);
      case _ =>
    }
  }

  lemma {:induction false} RereadItemsIff(items: Items, numbers: Numbers)
    ensures RereadItems(items, numbers) == items <==> ExactIn(items, numbers)
    decreases items, 0
  {
    if items.More? {
      RereadItemsIff(items.init, numbers);
      RereadIff(items.value, numbers);
    }
  }

  /** The text of a tree is parsed as that tree, if its numbers are exact. */
  lemma RoundTrip(v: Value, pretty: bool, numbers: Numbers)
    requires Storable(v) && Numeric(v, numbers) && Exact(v, numbers)
    ensures Parse(Print(v, 0, pretty, numbers), numbers) == Some(v)
  {
    hide Storable, Numeric, Exact, Print, Reread;
    TextReread(v, pretty, numbers);
    RereadIff(v, numbers);
  }

  // ---------------------------------------------------------------------
  // What is parsed is storable

  /** What the parser makes: strings of 1 to 19999999 bytes, distinct keys of 1 to 65535 bytes, and no long integer. */
  ghost predicate Held(v: Value)
    decreases v, 1
  {
    match v
    case Str(s) => 1 <= |s| < 20000000
    case Int64(_) => false
    case Array(items) => HeldIn(items, true)
    case Object(fields) => HeldIn(fields, false)
    case _ => true
  }

  ghost predicate HeldIn(items: Items, isArray: bool)
    decreases items, 0
  {
    items.More? ==>
      && HeldIn(items.init, isArray) && Held(items.value)
      && if isArray then items.key == "" else 1 <= |items.key| < 65536 && !Has(items.init, items.key)
  }

  /** Numbers have 64 bits. */
  ghost predicate InRange(v: Value)
    decreases v, 1
  {
    match v
    case Number(bits) => bits < 0x1_0000_0000_0000_0000
    case Int64(n) => -0x8000_0000_0000_0000 <= n < 0x8000_0000_0000_0000
    case Array(items) => InRangeAll(items)
    case Object(fields) => InRangeAll(fields)
    case _ => true
  }

  ghost predicate InRangeAll(items: Items)
    decreases items, 0
  {
    items.More? ==> InRangeAll(items.init) && InRange(items.value)
  }

  lemma {:induction false} HeldIsStorable(v: Value)
    requires Held(v) && InRange(v)
    ensures Storable(v)
    decreases v, 1
  {
    match v {
      case Array(items) => HeldInIsStorable(items, true);
      case Object(fields) => HeldInIsStorable(fields, false);
      case _ =>
    }
  }

  lemma {:induction false} HeldInIsStorable(items: Items, isArray: bool)
    requires HeldIn(items, isArray) && InRangeAll(items)
    ensures StorableItems(items, isArray)
    decreases items, 0
  {
    if items.More? {
      HeldInIsStorable(items.init, isArray);
      HeldIsStorable(items.value);
    }
  }

  lemma {:induction false} StorableIsHeld(v: Value, numbers: Numbers)
    requires Storable(v) && Exact(v, numbers)
    ensures Held(v)
    decreases v, 1
  {
    match v {
      case Array(items) => StorableIsHeldIn(items, true, numbers);
      case Object(fields) => StorableIsHeldIn(fields, false, numbers);
      case _ =>
    }
  }

  lemma {:induction false} StorableIsHeldIn(items: Items, isArray: bool, numbers: Numbers)
    requires StorableItems(items, isArray) && ExactIn(items, numbers)
    ensures HeldIn(items, isArray)
    decreases items, 0
  {
    if items.More? {
      StorableIsHeldIn(items.init, isArray, numbers);
      StorableIsHeld(items.value, numbers);
    }
  }

  lemma {:induction false} ReplaceHeld(items: Items, key: string, value: Value)
    requires HeldIn(items, false) && Held(value)
    ensures HeldIn(Replace(items, key, value), false)
  {
    hide Held;
    if items.More? {
      ReplaceHeld(items.init, key, value);
      ReplaceKeys(items.init, key, value, items.key);
    }
  }

  lemma SetFieldHeld(items: Items, key: CString, value: Value)
    requires HeldIn(items, false) && Held(value)
    ensures var r := SetField(items, key, value); r.Some? ==> HeldIn(r.value, false)
  {
    hide Held;
    ReplaceHeld(items, key, value);
  }

  lemma {:induction false} ValueHeld(b: string, start: nat, numbers: Numbers)
    requires start <= |b|
    ensures var r := ParseValue(b, start, numbers); r.Some? ==> Held(r.value.value)
    decreases |b| - start, 1
  {
    hide HeldIn, ParseBracketed, SkipSpace, ParseChars, NumberEnd, HasAt, UpToZero;
    var pos := SkipSpace(b, start);
    if pos < |b| && (b[pos] == '{' || b[pos] == '[') {
      BracketedHeld(b, pos + 1, b[pos] == '[', numbers);
    }
  }

  lemma BracketedHeld(b: string, start: nat, isArray: bool, numbers: Numbers)
    requires start <= |b|
    ensures var r := ParseBracketed(b, start, isArray, numbers); r.Some? ==> HeldIn(r.value.value, isArray)
    decreases |b| - start, 4
  {
    hide ParseItems, SkipSpace;
    ItemsHeld(b, SkipSpace(b, start), Nothing, isArray, numbers);
  }

  lemma {:induction false} ItemsHeld(b: string, start: nat, items: Items, isArray: bool, numbers: Numbers)
    requires start <= |b| && HeldIn(items, isArray)
    ensures var r := ParseItems(b, start, items, isArray, numbers); r.Some? ==> HeldIn(r.value.value, isArray)
    decreases |b| - start, 3
  {
    hide HeldIn, ParseEntry, SkipSpace;
    EntryHeld(b, start, items, isArray, numbers);
    var e := ParseEntry(b, start, items, isArray, numbers);
    if e.Some? {
      var pos := SkipSpace(b, e.value.end);
      if CharAt(b, pos, ',') {
        ItemsHeld(b, pos + 1, e.value.value, isArray, numbers);
      }
    }
  }

  lemma EntryHeld(b: string, start: nat, items: Items, isArray: bool, numbers: Numbers)
    requires start <= |b| && HeldIn(items, isArray)
    ensures var r := ParseEntry(b, start, items, isArray, numbers); r.Some? ==> HeldIn(r.value.value, isArray)
    decreases |b| - start, 2
  {
    hide Held, ParseValue, ParseChars, SkipSpace, UpToZero, SetField;
    var pos := SkipSpace(b, start);
    if isArray {
      ValueHeld(b, pos, numbers);
    } else if CharAt(b, pos, '"') {
      var key := ParseChars(b, pos + 1, "");
      if key.Some? {
        var colon := SkipSpace(b, key.value.end);
        if CharAt(b, colon, ':') {
          ValueHeld(b, SkipSpace(b, colon + 1), numbers);
          var v := ParseValue(b, SkipSpace(b, colon + 1), numbers);
          if v.Some? {
            SetFieldHeld(items, UpToZero(key.value.value), v.value.value);
          }
        }
      }
    }
  }

  /** A tree whose numbers are printed as numerals is parsed back from its text exactly when keys are neither empty nor
      too long nor repeated, strings neither empty nor too long, and its numbers exact. */
  lemma RoundTripIff(v: Value, pretty: bool, numbers: Numbers)
    requires InRange(v) && Numeric(v, numbers)
    ensures Parse(Print(v, 0, pretty, numbers), numbers) == Some(v) <==> Held(v) && Exact(v, numbers)
  {
    hide Print, ParseValue, Storable, Numeric, Held, SkipSpace, Exact, Reread, InRange;
    var b := Print(v, 0, pretty, numbers);
    ValueHeld(b, SkipSpace(b, 0), numbers);
    if Held(v) {
      HeldIsStorable(v);
      TextReread(v, pretty, numbers);
      RereadIff(v, numbers);
    }
  }

  /** No 64-bit integer comes back as one. */
  lemma IntegersChange(n: int, pretty: bool, numbers: Numbers)
    requires -0x8000_0000_0000_0000 <= n < 0x8000_0000_0000_0000
    ensures Parse(Print(Int64(n), 0, pretty, numbers), numbers) ==
            Some(if -9007199254740991 <= n <= 9007199254740991 then Number(numbers.read(PrintInt(n))) else (PrintIntIsText(n); Str(PrintInt(n))))
  {
    hide Print, Parse, PrintInt;
    TextReread(Int64(n), pretty, numbers);
  }

  /** A new line and two blanks a level, or nothing. */
  lemma {:induction false} LayoutIs(level: nat, pretty: bool)
    ensures var line := NewLine(level, pretty);
            if pretty then |line| == 1 + 2 * level && line[0] == '\n' && forall i :: 1 <= i < |line| ==> line[i] == ' ' else line == ""
  {
    if pretty && level > 0 {
      LayoutIs(level - 1, true);
      assert Spaces(level) == Spaces(level - 1) + "  ";
      assert NewLine(level, true) == NewLine(level - 1, true) + "  ";
    }
  }

  lemma OneItem(value: Value, key: CString, isArray: bool, level: nat, pretty: bool, numbers: Numbers)
    ensures PrintItems(More(Nothing, key, value), isArray, level, pretty, numbers) ==
            PrintKey(key, isArray, pretty) + Print(value, level + 1, pretty, numbers)
  {
    hide Print, PrintKey;
    assert PrintItems(Nothing, isArray, level, pretty, numbers) == "";
    var entry := PrintKey(key, isArray, pretty) + Print(value, level + 1, pretty, numbers);
    assert "" + "" + entry == entry;
  }

  lemma InnerSample(numbers: Numbers)
    ensures Print(Array(More(Nothing, "", Null)), 1, true, numbers) == "[\n  null\n  ]"
    ensures Print(Array(More(Nothing, "", Null)), 1, false, numbers) == "[null]"
  {
    OneItem(Null, "", true, 1, true, numbers);
    OneItem(Null, "", true, 1, false, numbers);
    hide PrintItems;
    assert Spaces(1) == Spaces(0) + "  " == "  ";
  }

  /** A sample of the layout: an entry stands as deep as the bracket around it. */
  lemma Sample(numbers: Numbers)
    ensures var v := Array(More(Nothing, "", Array(More(Nothing, "", Null))));
            Print(v, 0, true, numbers) == "[\n[\n  null\n  ]\n]" && Print(v, 0, false, numbers) == "[[null]]"
  {
    hide PrintItems, Print;
    InnerSample(numbers);
    OuterSample(Array(More(Nothing, "", Null)), numbers);
  }

  lemma ArrayText(items: Items, level: nat, pretty: bool, numbers: Numbers)
    ensures Print(Array(items), level, pretty, numbers) == PrintBracketed(items, true, level, pretty, numbers)
  {
    hide PrintBracketed;
  }

  lemma OneBracketed(value: Value, pretty: bool, numbers: Numbers)
    ensures PrintBracketed(More(Nothing, "", value), true, 0, pretty, numbers) ==
            if pretty then "[\n" + Print(value, 1, true, numbers) + "\n]" else "[" + Print(value, 1, false, numbers) + "]"
  {
    hide PrintItems, Print, PrintKey, NewLine;
    OneItem(value, "", true, 0, pretty, numbers);
    NoKey("", pretty);
    LayoutIs(0, pretty);
    var line, t := NewLine(0, pretty), Print(value, 1, pretty, numbers);
    assert "" + t == t;
    assert line == if pretty then "\n" else "";
    assert "[" + line + t + line + "]" == if pretty then "[\n" + t + "\n]" else "[" + t + "]";
  }

  lemma OuterSample(value: Value, numbers: Numbers)
    ensures Print(Array(More(Nothing, "", value)), 0, true, numbers) == "[\n" + Print(value, 1, true, numbers) + "\n]"
    ensures Print(Array(More(Nothing, "", value)), 0, false, numbers) == "[" + Print(value, 1, false, numbers) + "]"
  {
    hide Print, PrintBracketed;
    ArrayText(More(Nothing, "", value), 0, true, numbers);
    ArrayText(More(Nothing, "", value), 0, false, numbers);
    OneBracketed(value, true, numbers);
    OneBracketed(value, false, numbers);
  }
}
