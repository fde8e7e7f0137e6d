/** What digits, numerals, letters and blanks are, by tables and positions. */
module Numerals {
  import opened Text

  const DECIMAL_DIGITS: string := "0123456789"
  const LOWER_HEX: string := "0123456789abcdef"
  const UPPER_HEX: string := "0123456789ABCDEF"
  const UPPER_LETTERS: string := "ABCDEFGHIJKLMNOPQRSTUVWXYZ"
  const LOWER_LETTERS: string := "abcdefghijklmnopqrstuvwxyz"

  /** The byte is the digit with this value. */
  ghost predicate DigitOf(c: char, base: nat, d: nat) {
    || (base == 10 && d < 10 && c == DECIMAL_DIGITS[d])
    || (base == 16 && d < 16 && (c == LOWER_HEX[d] || c == UPPER_HEX[d]))
  }

  ghost predicate Spells(s: string, base: nat, digits: seq<nat>) {
    |digits| == |s| && forall i :: 0 <= i < |s| ==> DigitOf(s[i], base, digits[i])
  }

  ghost function Power(base: nat, k: nat): nat { if k == 0 then 1 else base * Power(base, k - 1) }

  /** Every digit times the power of its place. */
  ghost function Positional(digits: seq<nat>, base: nat): nat {
    if digits == [] then 0 else digits[0] * Power(base, |digits| - 1) + Positional(digits[1..], base)
  }

  /** s is written in digits of the base and denotes n. */
  ghost predicate Numeral(s: string, base: nat, n: nat) {
    exists digits :: Spells(s, base, digits) && Positional(digits, base) == n
  }

  lemma DecimalValue(c: char, d: nat)
    requires d < 10 && c == DECIMAL_DIGITS[d]
    ensures IsDigit(c) && HexDigitValue(c) == d
  {
    if d == 0 {} else if d == 1 {} else if d == 2 {} else if d == 3 {} else if d == 4 {}
    else if d == 5 {} else if d == 6 {} else if d == 7 {} else if d == 8 {} else {}
  }

  lemma HexValue(c: char, d: nat)
    requires d < 16 && (c == LOWER_HEX[d] || c == UPPER_HEX[d])
    ensures IsHexDigit(c) && HexDigitValue(c) == d
  {
    if d < 10 {
      assert LOWER_HEX[..10] == UPPER_HEX[..10] == DECIMAL_DIGITS;
      assert LOWER_HEX[..10][d] == UPPER_HEX[..10][d] == c;
      DecimalValue(c, d);
    } else if d == 10 {} else if d == 11 {} else if d == 12 {} else if d == 13 {} else if d == 14 {} else {}
  }

  /** The digits are exactly those of the tables, with their values. */
  lemma DigitTables(c: char)
    ensures IsDigit(c) <==> exists d :: DigitOf(c, 10, d)
    ensures IsHexDigit(c) <==> exists d :: DigitOf(c, 16, d)
    ensures forall d :: DigitOf(c, 10, d) ==> HexDigitValue(c) == d
    ensures forall d :: DigitOf(c, 16, d) ==> IsHexDigit(c) && HexDigitValue(c) == d
  {
    forall d | DigitOf(c, 10, d)
      ensures IsDigit(c) && HexDigitValue(c) == d
    {
      DecimalValue(c, d);
    }
    forall d | DigitOf(c, 16, d)
      ensures IsHexDigit(c) && HexDigitValue(c) == d
    {
      HexValue(c, d);
    }
    if IsDigit(c) {
      DigitInTable(c);
    }
    if IsHexDigit(c) {
      HexInTable(c);
    }
  }

  lemma DigitInTable(c: char)
    requires IsDigit(c)
    ensures DigitOf(c, 10, HexDigitValue(c)) && DigitOf(c, 16, HexDigitValue(c))
  {
    if c == '0' {} else if c == '1' {} else if c == '2' {} else if c == '3' {} else if c == '4' {}
    else if c == '5' {} else if c == '6' {} else if c == '7' {} else if c == '8' {} else {}
  }

  lemma HexInTable(c: char)
    requires IsHexDigit(c)
    ensures DigitOf(c, 16, HexDigitValue(c))
  {
    if IsDigit(c) { DigitInTable(c); }
    else if c == 'a' {} else if c == 'b' {} else if c == 'c' {} else if c == 'd' {} else if c == 'e' {} else if c == 'f' {}
    else if c == 'A' {} else if c == 'B' {} else if c == 'C' {} else if c == 'D' {} else if c == 'E' {} else {}
  }

  lemma {:induction false} PositionalSnoc(digits: seq<nat>, d: nat, base: nat)
    ensures Positional(digits + [d], base) == Positional(digits, base) * base + d
  {
    if digits == [] {
      assert [] + [d] == [d] && [d][1..] == [];
      assert Power(base, 0) == 1;
    } else {
      var a, k := digits[0], |digits| - 1;
      assert (digits + [d])[1..] == digits[1..] + [d];
      PositionalSnoc(digits[1..], d, base);
      assert a * (base * Power(base, k)) == a * Power(base, k) * base;
    }
  }

  lemma {:induction false} DigitsByPosition(s: string, base: nat, digits: seq<nat>)
    requires (base == 10 || base == 16) && Spells(s, base, digits)
    ensures forall c :: c in s ==> if base == 10 then IsDigit(c) else IsHexDigit(c)
    ensures Digits(s, base) == Positional(digits, base)
  {
    hide IsDigit, IsHexDigit, HexDigitValue, DigitOf;
    forall c | c in s
      ensures if base == 10 then IsDigit(c) else IsHexDigit(c)
    {
      var i :| 0 <= i < |s| && s[i] == c;
      assert DigitOf(s[i], base, digits[i]);
      DigitTables(c);
    }
    if s != "" {
      var last := |s| - 1;
      DigitsByPosition(s[..last], base, digits[..last]);
      assert DigitOf(s[last], base, digits[last]);
      DigitTables(s[last]);
      PositionalSnoc(digits[..last], digits[last], base);
      assert digits[..last] + [digits[last]] == digits;
    }
  }

  lemma {:induction false} SpellsExists(s: string, base: nat) returns (digits: seq<nat>)
    requires base == 10 || base == 16
    requires forall c :: c in s ==> if base == 10 then IsDigit(c) else IsHexDigit(c)
    ensures Spells(s, base, digits)
  {
    hide IsDigit, IsHexDigit, HexDigitValue, DigitOf;
    if s == "" {
      return [];
    }
    var last := |s| - 1;
    var before := SpellsExists(s[..last], base);
    DigitTables(s[last]);
    var d :| DigitOf(s[last], base, d);
    digits := before + [d];
    forall i | 0 <= i < |s|
      ensures DigitOf(s[i], base, digits[i])
    {
      if i < last {
        assert s[..last][i] == s[i];
      }
    }
  }

  /** Reading digits gives the number that the numeral denotes by its positions. */
  lemma NumeralIff(s: string, base: nat, n: nat)
    requires base == 10 || base == 16
    ensures Numeral(s, base, n) <==> (forall c :: c in s ==> if base == 10 then IsDigit(c) else IsHexDigit(c)) && Digits(s, base) == n
  {
    hide IsDigit, IsHexDigit, Digits, Spells, Positional;
    forall digits | Spells(s, base, digits)
      ensures (forall c :: c in s ==> if base == 10 then IsDigit(c) else IsHexDigit(c)) && Digits(s, base) == Positional(digits, base)
    {
      DigitsByPosition(s, base, digits);
    }
    if (forall c :: c in s ==> if base == 10 then IsDigit(c) else IsHexDigit(c)) {
      var digits := SpellsExists(s, base);
      DigitsByPosition(s, base, digits);
    }
  }

  lemma {:induction false} DecimalDigits(n: nat)
    ensures Digits(Decimal(n), 10) == n && (Decimal(n)[0] == '0' ==> n == 0)
  {
    hide IsDigit;
    var last := DigitChar(n % 10);
    assert HexDigitValue(last) == n % 10;
    if n >= 10 {
      DecimalDigits(n / 10);
      assert (Decimal(n / 10) + [last])[..|Decimal(n / 10)|] == Decimal(n / 10);
    } else {
      assert [last][..0] == "";
    }
  }

  /** A printed number denotes the number, without a leading zero. */
  lemma PrintIntDenotes(n: int)
    ensures n >= 0 ==> Numeral(PrintInt(n), 10, n) && (if n == 0 then PrintInt(n) == "0" else PrintInt(n)[0] != '0')
    ensures n < 0 ==> PrintInt(n)[0] == '-' && Numeral(PrintInt(n)[1..], 10, -n) && PrintInt(n)[1] != '0'
  {
    var m := if n < 0 then -n else n;
    DecimalDigits(m);
    NumeralIff(Decimal(m), 10, m);
    if n < 0 {
      assert PrintInt(n)[1..] == Decimal(m);
    }
  }

  // ---------------------------------------------------------------------
  // Letters

  /** The byte is this small letter or its capital; any other byte is only itself. */
  ghost predicate SpellingOf(c: char, small: char) {
    c == small || exists k :: 0 <= k < 26 && c == UPPER_LETTERS[k] && small == LOWER_LETTERS[k]
  }

  /** s is the text in small letters, in any mixture of capitals and small letters. */
  ghost predicate AnyCase(s: string, text: string) {
    |s| == |text| && forall i :: 0 <= i < |s| ==> SpellingOf(s[i], text[i])
  }

  ghost predicate NoCapitals(text: string) {
    forall i, k :: 0 <= i < |text| && 0 <= k < 26 ==> text[i] != UPPER_LETTERS[k]
  }

  lemma LetterTables(k: int)
    requires 0 <= k < 26
    ensures UPPER_LETTERS[k] as int == 'A' as int + k && LOWER_LETTERS[k] as int == 'a' as int + k
  {
    if k == 0 {} else if k == 1 {} else if k == 2 {} else if k == 3 {} else if k == 4 {} else if k == 5 {} else if k == 6 {}
    else if k == 7 {} else if k == 8 {} else if k == 9 {} else if k == 10 {} else if k == 11 {} else if k == 12 {} else if k == 13 {}
    else if k == 14 {} else if k == 15 {} else if k == 16 {} else if k == 17 {} else if k == 18 {} else if k == 19 {} else if k == 20 {}
    else if k == 21 {} else if k == 22 {} else if k == 23 {} else if k == 24 {} else {}
  }

  lemma LowerLetter(c: char, small: char)
    requires forall k :: 0 <= k < 26 ==> small != UPPER_LETTERS[k]
    ensures ToLower(c) == small <==> SpellingOf(c, small)
  {
    forall k | 0 <= k < 26
      ensures UPPER_LETTERS[k] as int == 'A' as int + k && LOWER_LETTERS[k] as int == 'a' as int + k
    {
      LetterTables(k);
    }
    if 'A' <= c <= 'Z' {
      var k := c as int - 'A' as int;
      assert UPPER_LETTERS[k] == c;
    }
  }

  /** Lower case is the spelling without capitals. */
  lemma LowerIsAnyCase(s: string, text: string)
    requires NoCapitals(text)
    ensures Lower(s) == text <==> AnyCase(s, text)
  {
    hide SpellingOf, ToLower;
    if |s| == |text| {
      forall i | 0 <= i < |s|
        ensures Lower(s)[i] == text[i] <==> SpellingOf(s[i], text[i])
      {
        LowerLetter(s[i], text[i]);
      }
      assert (forall i :: 0 <= i < |s| ==> Lower(s)[i] == text[i]) <==> Lower(s) == text;
    }
  }

  // ---------------------------------------------------------------------
  // Blanks

  /** Tab, line feed, vertical tab, form feed, carriage return and blank. */
  ghost predicate SpaceByte(c: char) { c as int in {9, 10, 11, 12, 13, 32} }

  lemma SpaceTable(c: char)
    ensures IsSpace(c) <==> SpaceByte(c)
  {
  }

  /** One of the ten digits. */
  ghost predicate DigitByte(c: char) { c in DECIMAL_DIGITS }

  lemma DigitTable(c: char)
    ensures IsDigit(c) <==> DigitByte(c)
  {
    DigitTables(c);
    if IsDigit(c) {
      var d :| DigitOf(c, 10, d);
    }
    if DigitByte(c) {
      var d :| 0 <= d < 10 && DECIMAL_DIGITS[d] == c;
      assert DigitOf(c, 10, d);
    }
  }
}
