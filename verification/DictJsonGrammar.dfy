/** The language that the JSON parser of the dictionaries reads: section 2 of RFC 8259 with comments, and
    exactly what each text means.

    Everything is said by the bytes at positions of the text, in literals, without the parser's functions. */
module DictJsonGrammar {
  import opened Text
  import opened Numerals
  import opened Dict
  import opened DictJsonSpec

  // ---------------------------------------------------------------------
  // Gaps: blanks and comments

  /** From two slashes up to the end of the line or of the text. */
  ghost predicate LineComment(b: string, i: nat, k: nat) {
    && i + 2 <= k <= |b| && b[i] == '/' && b[i + 1] == '/'
    && (forall m :: i + 2 <= m < k ==> b[m] != '\n' && b[m] != '\r')
    && (k < |b| ==> b[k] == '\n' || b[k] == '\r')
  }

  ghost predicate StarSlash(b: string, m: nat) { m + 1 < |b| && b[m] == '*' && b[m + 1] == '/' }

  /** From slash and star up to the next star and slash. */
  ghost predicate BlockComment(b: string, i: nat, k: nat) {
    && i + 4 <= k <= |b| && b[i] == '/' && b[i + 1] == '*' && StarSlash(b, k - 2)
    && (forall m :: i + 2 <= m < k - 2 ==> !StarSlash(b, m))
  }

  /** A comment that is never closed ends before the last byte of the text. */
  ghost predicate OpenComment(b: string, i: nat, k: nat) {
    && i + 2 <= |b| && b[i] == '/' && b[i + 1] == '*'
    && (forall m :: i + 2 <= m ==> !StarSlash(b, m))
    && k == if i + 2 == |b| then |b| else |b| - 1
  }

  ghost predicate GapPiece(b: string, i: nat, k: nat) {
    (k == i + 1 <= |b| && SpaceByte(b[i])) || LineComment(b, i, k) || BlockComment(b, i, k) || OpenComment(b, i, k)
  }

  /** Any number of blanks and comments. */
  ghost predicate Gap(b: string, i: nat, j: nat)
    decreases j - i
  {
    i == j || exists k :: i < k <= j && GapPiece(b, i, k) && Gap(b, k, j)
  }

  /** No blank and no comment begins here. */
  ghost predicate GapEnds(b: string, j: nat) {
    j < |b| ==> !SpaceByte(b[j]) && !(b[j] == '/' && j + 1 < |b| && (b[j + 1] == '/' || b[j + 1] == '*'))
  }

  lemma {:induction false} LineCommentEndIs(b: string, pos: nat)
    requires pos <= |b|
    ensures var k := LineCommentEnd(b, pos);
            && (forall m :: pos <= m < k ==> b[m] != '\n' && b[m] != '\r')
            && (k < |b| ==> b[k] == '\n' || b[k] == '\r')
    decreases |b| - pos
  {
    if pos < |b| && b[pos] != '\n' && b[pos] != '\r' {
      LineCommentEndIs(b, pos + 1);
    }
  }

  lemma {:induction false} BlockCommentEndIs(b: string, pos: nat)
    requires pos <= |b|
    ensures var k := BlockCommentEnd(b, pos);
            || (pos + 2 <= k && StarSlash(b, k - 2) && forall m :: pos <= m < k - 2 ==> !StarSlash(b, m))
            || ((forall m :: pos <= m ==> !StarSlash(b, m)) && k == if pos == |b| then |b| else |b| - 1)
    decreases |b| - pos
  {
    if pos + 1 < |b| && !StarSlash(b, pos) {
      BlockCommentEndIs(b, pos + 1);
    }
  }

  lemma SlashIsNoBlank()
    ensures !SpaceByte('/') && !IsSpace('/')
  {
  }

  /** The first piece of a gap is skipped. */
  lemma PieceSkipped(b: string, i: nat, k: nat)
    requires i < k && GapPiece(b, i, k)
    ensures k <= |b| && SkipSpace(b, i) == SkipSpace(b, k)
  {
    hide IsSpace, SpaceByte;
    if k == i + 1 <= |b| && SpaceByte(b[i]) {
      SpaceTable(b[i]);
    } else {
      assert b[i] == '/';
      SlashIsNoBlank();
      if LineComment(b, i, k) {
        LineCommentEndIs(b, i + 2);
      } else {
        BlockCommentEndIs(b, i + 2);
      }
    }
  }

  lemma {:induction false} GapSkipped(b: string, i: nat, j: nat)
    requires i <= j <= |b| && Gap(b, i, j)
    ensures SkipSpace(b, i) == SkipSpace(b, j)
    decreases j - i
  {
    hide SkipSpace, GapPiece;
    if i < j {
      var k :| i < k <= j && GapPiece(b, i, k) && Gap(b, k, j);
      PieceSkipped(b, i, k);
      GapSkipped(b, k, j);
    }
  }

  lemma EndsSkipping(b: string, j: nat)
    requires j <= |b|
    ensures GapEnds(b, j) <==> SkipSpace(b, j) == j
  {
    hide IsSpace, SpaceByte;
    if j < |b| {
      SpaceTable(b[j]);
      SlashIsNoBlank();
    }
  }

  lemma {:induction false} SkipReaches(b: string, i: nat)
    requires i <= |b|
    ensures Gap(b, i, SkipSpace(b, i)) && GapEnds(b, SkipSpace(b, i))
    decreases |b| - i
  {
    hide IsSpace, SpaceByte, GapEnds;
    if i < |b| {
      SpaceTable(b[i]);
    }
    EndsSkipping(b, i);
    if SkipSpace(b, i) != i {
      var k := FirstPiece(b, i);
      SkipReaches(b, k);
    }
  }

  lemma FirstPiece(b: string, i: nat) returns (k: nat)
    requires i <= |b| && SkipSpace(b, i) != i
    ensures i < k <= |b| && GapPiece(b, i, k) && SkipSpace(b, i) == SkipSpace(b, k)
  {
    hide IsSpace, SpaceByte;
    SpaceTable(b[i]);
    if IsSpace(b[i]) {
      k := i + 1;
    } else if b[i + 1] == '/' {
      k := LineCommentEnd(b, i + 2);
      LineCommentEndIs(b, i + 2);
    } else {
      k := BlockCommentEnd(b, i + 2);
      BlockCommentEndIs(b, i + 2);
    }
  }

  /** Skipping goes exactly to the end of the gap. */
  lemma SkipIff(b: string, i: nat, j: nat)
    requires i <= |b|
    ensures SkipSpace(b, i) == j <==> i <= j <= |b| && Gap(b, i, j) && GapEnds(b, j)
  {
    hide SkipSpace, Gap, GapEnds;
    SkipReaches(b, i);
    if i <= j <= |b| && Gap(b, i, j) && GapEnds(b, j) {
      GapSkipped(b, i, j);
      EndsSkipping(b, j);
    }
  }

  // ---------------------------------------------------------------------
  // Strings

  const SHORT_ESCAPES: string := "\"\\/bfnrt"
  const ESCAPED_CODES: seq<int> := [34, 92, 47, 8, 12, 10, 13, 9]

  /** One character of a string from i to k: itself, an escape of one letter, or four hexadecimal digits, where
      everything outside ASCII is a question mark. */
  ghost predicate CharIs(b: string, i: nat, k: nat, c: char) {
    || (k == i + 1 <= |b| && b[i] == c && c != '"' && c != '\\' && c as int >= 32)
    || (k == i + 2 <= |b| && b[i] == '\\' && exists n :: 0 <= n < 8 && b[i + 1] == SHORT_ESCAPES[n] && c as int == ESCAPED_CODES[n])
    || (k == i + 6 <= |b| && b[i] == '\\' && b[i + 1] == 'u' && CodeOf(b[i + 2..i + 6], c))
  }

  ghost predicate CodeOf(hex: string, c: char) {
    exists n: nat :: Numeral(hex, 16, n) && c as int == if n < 128 then n else 63
  }

  ghost predicate Chars(b: string, i: nat, j: nat, s: string)
    decreases |s|
  {
    if s == "" then i == j else exists k :: i < k <= j && CharIs(b, i, k, s[0]) && Chars(b, k, j, s[1..])
  }

  /** A string with its quotes. */
  ghost predicate StringAt(b: string, i: nat, j: nat, s: string) {
    i + 2 <= j <= |b| && b[i] == '"' && b[j - 1] == '"' && Chars(b, i + 1, j - 1, s)
  }

  lemma ShortEscape(c: char)
    ensures Unescape(c).Some? <==> exists n :: 0 <= n < 8 && c == SHORT_ESCAPES[n]
    ensures forall n :: 0 <= n < 8 && c == SHORT_ESCAPES[n] ==> Unescape(c).Some? && Unescape(c).value as int == ESCAPED_CODES[n]
    ensures forall n :: 0 <= n < 8 ==> SHORT_ESCAPES[n] != 'u'
  {
    assert SHORT_ESCAPES[0] == '"' && SHORT_ESCAPES[1] == '\\' && SHORT_ESCAPES[2] == '/' && SHORT_ESCAPES[3] == 'b';
    assert SHORT_ESCAPES[4] == 'f' && SHORT_ESCAPES[5] == 'n' && SHORT_ESCAPES[6] == 'r' && SHORT_ESCAPES[7] == 't';
  }

  lemma CodePointIs(b: string, pos: nat, c: char)
    requires pos + 4 <= |b|
    ensures CodePoint(b, pos) == Some(c) <==> CodeOf(b[pos..pos + 4], c)
  {
    hide Numeral, Digits, IsHexDigit;
    var hex := b[pos..pos + 4];
    assert forall i :: pos <= i < pos + 4 ==> b[i] == hex[i - pos];
    assert forall k :: 0 <= k < 4 ==> hex[k] == b[pos + k];
    assert (forall i :: pos <= i < pos + 4 ==> IsHexDigit(b[i])) <==> forall d :: d in hex ==> IsHexDigit(d);
    forall n: nat
      ensures Numeral(hex, 16, n) <==> (forall d :: d in hex ==> IsHexDigit(d)) && Digits(hex, 16) == n
    {
      NumeralIff(hex, 16, n);
    }
    if forall d :: d in hex ==> IsHexDigit(d) {
      var n := Digits(hex, 16);
      assert CodePoint(b, pos) == Some(if n <= 0x7F then n as char else '?');
      assert Numeral(hex, 16, n);
    } else {
      assert CodePoint(b, pos) == None;
    }
  }

  /** The parser goes over one character of a string exactly when there is one. */
  lemma CharRead(b: string, i: nat, k: nat, c: char, text: string)
    requires CharIs(b, i, k, c)
    ensures i < k && ParseChars(b, i, text) == ParseChars(b, k, text + [c]) && i < |b| && b[i] != '"'
  {
    hide CodePoint, Unescape, Numeral;
    if i + 1 < |b| {
      ShortEscape(b[i + 1]);
    }
    if k == i + 6 {
      CodePointIs(b, i + 2, c);
    }
  }

  lemma {:induction false} CharsRead(b: string, i: nat, j: nat, s: string, text: string)
    requires Chars(b, i, j, s)
    ensures i <= j && ParseChars(b, i, text) == ParseChars(b, j, text + s)
    decreases |s|
  {
    hide ParseChars, CharIs;
    if s == "" {
      assert text + s == text;
    } else {
      var k :| i < k <= j && CharIs(b, i, k, s[0]) && Chars(b, k, j, s[1..]);
      CharRead(b, i, k, s[0], text);
      CharsRead(b, k, j, s[1..], text + [s[0]]);
      assert text + [s[0]] + s[1..] == text + s;
    }
  }

  lemma NextChar(b: string, i: nat, text: string) returns (k: nat, c: char)
    requires ParseChars(b, i, text).Some? && b[i] != '"'
    ensures i < k && CharIs(b, i, k, c) && ParseChars(b, i, text) == ParseChars(b, k, text + [c])
  {
    hide CodePoint, Unescape, Numeral;
    if b[i] != '\\' {
      k, c := i + 1, b[i];
    } else if b[i + 1] == 'u' {
      k, c := i + 6, CodePoint(b, i + 2).value;
      assert i + 6 <= |b| by { CodePointHasDigits(b, i + 2); }
      CodePointIs(b, i + 2, c);
    } else {
      k, c := i + 2, Unescape(b[i + 1]).value;
      ShortEscape(b[i + 1]);
    }
  }

  lemma CodePointHasDigits(b: string, pos: nat)
    ensures CodePoint(b, pos).Some? ==> pos + 4 <= |b|
  {
  }

  lemma {:induction false} CharsFound(b: string, i: nat, text: string) returns (s: string)
    requires ParseChars(b, i, text).Some?
    ensures var r := ParseChars(b, i, text).value;
            i < r.end <= |b| && b[r.end - 1] == '"' && r.value == text + s && Chars(b, i, r.end - 1, s)
    decreases |b| - i
  {
    hide CharIs, CodePoint, Unescape;
    if b[i] == '"' {
      s := "";
    } else {
      var k, c := NextChar(b, i, text);
      var rest := CharsFound(b, k, text + [c]);
      s := [c] + rest;
      assert s[1..] == rest;
    }
  }

  /** Exactly the strings are read, with these characters. */
  lemma StringIff(b: string, i: nat, j: nat, s: string)
    requires i < |b| && b[i] == '"'
    ensures ParseChars(b, i + 1, "") == Some(Parsed(s, j)) <==> StringAt(b, i, j, s)
  {
    hide Chars;
    if StringAt(b, i, j, s) {
      CharsRead(b, i + 1, j - 1, s, "");
      assert "" + s == s;
    }
    if ParseChars(b, i + 1, "") == Some(Parsed(s, j)) {
      var t := CharsFound(b, i + 1, "");
      assert "" + t == t;
    }
  }

  // ---------------------------------------------------------------------
  // Numbers

  /** Section 6 of RFC 8259. */
  datatype NumberParts = NumberParts(sign: string, whole: string, fraction: string, exponent: string)

  ghost predicate DigitRun(s: string) { s != "" && forall i :: 0 <= i < |s| ==> DigitByte(s[i]) }

  ghost predicate Fraction(s: string) { s == "" || (s[0] == '.' && DigitRun(s[1..])) }

  ghost predicate Exponent(s: string) {
    s == "" || (s[0] in {'e', 'E'} && (DigitRun(s[1..]) || (|s| >= 2 && s[1] in {'+', '-'} && DigitRun(s[2..]))))
  }

  /** A whole part without leading zeros, perhaps a sign, a fraction and an exponent. */
  ghost predicate IsNumber(s: string, p: NumberParts) {
    && s == p.sign + p.whole + p.fraction + p.exponent
    && p.sign in {"", "-"} && DigitRun(p.whole) && (p.whole[0] == '0' ==> p.whole == "0")
    && Fraction(p.fraction) && Exponent(p.exponent)
  }

  /** The byte would be part of the number. */
  ghost predicate Continues(p: NumberParts, c: char) {
    if p.exponent != "" then DigitByte(c)
    else if p.fraction != "" then DigitByte(c) || c in {'e', 'E'}
    else (DigitByte(c) && p.whole != "0") || c in {'.', 'e', 'E'}
  }

  ghost predicate NumberAt(b: string, i: nat, j: nat, p: NumberParts) {
    i <= j <= |b| && IsNumber(b[i..j], p) && (j < |b| ==> !Continues(p, b[j]))
  }

  /** Digits from i to j and none at j. */
  ghost predicate DigitsTo(b: string, i: nat, j: nat) {
    i <= j <= |b| && (forall k :: i <= k < j ==> IsDigit(b[k])) && !DigitAt(b, j)
  }

  lemma {:induction false} SkipDigitsIff(b: string, i: nat, j: nat)
    requires i <= |b|
    ensures SkipDigits(b, i) == j <==> DigitsTo(b, i, j)
    decreases |b| - i
  {
    hide IsDigit;
    if i < |b| && IsDigit(b[i]) {
      SkipDigitsIff(b, i + 1, j);
    }
  }

  lemma RunIff(b: string, i: nat, j: nat)
    requires i <= j <= |b|
    ensures DigitRun(b[i..j]) <==> i < j && forall k :: i <= k < j ==> IsDigit(b[k])
  {
    hide IsDigit, DigitByte;
    forall k | i <= k < j
      ensures IsDigit(b[k]) <==> DigitByte(b[i..j][k - i])
    {
      DigitTable(b[k]);
    }
    assert forall n :: 0 <= n < j - i ==> b[i..j][n] == b[i + n];
  }

  /** The positions where the parts of a number begin. */
  datatype Cuts = Cuts(whole: nat, fraction: nat, exponent: nat, end: nat)

  /** The parts of a number by positions. */
  ghost predicate CutsAt(b: string, i: nat, c: Cuts) {
    && i <= c.whole < c.fraction <= c.exponent <= c.end <= |b|
    && (c.whole == i || (c.whole == i + 1 && b[i] == '-'))
    && (forall k :: c.whole <= k < c.fraction ==> IsDigit(b[k])) && (b[c.whole] == '0' ==> c.fraction == c.whole + 1)
    && (c.fraction < c.exponent ==> b[c.fraction] == '.' && c.fraction + 1 < c.exponent && forall k :: c.fraction + 1 <= k < c.exponent ==> IsDigit(b[k]))
    && (c.exponent < c.end ==>
          && (b[c.exponent] == 'e' || b[c.exponent] == 'E')
          && ExponentStart(b, c.exponent) < c.end && forall k :: ExponentStart(b, c.exponent) <= k < c.end ==> IsDigit(b[k]))
  }

  ghost predicate StopsAt(b: string, c: Cuts) {
    c.end < |b| && c.whole < c.fraction <= c.exponent <= c.end ==>
      if c.exponent < c.end then !IsDigit(b[c.end])
      else if c.fraction < c.exponent then !IsDigit(b[c.end]) && b[c.end] != 'e' && b[c.end] != 'E'
      else (IsDigit(b[c.end]) ==> b[c.whole] == '0') && b[c.end] != '.' && b[c.end] != 'e' && b[c.end] != 'E'
  }

  lemma WholeFound(b: string, p: nat) returns (q: nat)
    requires DigitAt(b, p)
    ensures q == (if b[p] == '0' then p + 1 else SkipDigits(b, p + 1)) && p < q <= |b|
    ensures (forall k :: p <= k < q ==> IsDigit(b[k])) && (b[p] == '0' ==> q == p + 1) && (DigitAt(b, q) ==> b[p] == '0')
  {
    hide IsDigit, SkipDigits;
    q := if b[p] == '0' then p + 1 else SkipDigits(b, p + 1);
    SkipDigitsIff(b, p + 1, q);
  }

  lemma FractionFound(b: string, q: nat) returns (f: nat)
    requires q <= |b| && (CharAt(b, q, '.') ==> DigitAt(b, q + 1))
    ensures f == (if CharAt(b, q, '.') then SkipDigits(b, q + 1) else q) && q <= f <= |b|
    ensures q < f ==> b[q] == '.' && q + 1 < f && (forall k :: q + 1 <= k < f ==> IsDigit(b[k])) && !DigitAt(b, f)
    ensures q == f ==> !CharAt(b, q, '.')
  {
    hide IsDigit, SkipDigits;
    f := if CharAt(b, q, '.') then SkipDigits(b, q + 1) else q;
    if CharAt(b, q, '.') {
      SkipDigitsIff(b, q + 1, f);
    }
  }

  function ExponentStart(b: string, f: nat): nat {
    if CharAt(b, f + 1, '+') || CharAt(b, f + 1, '-') then f + 2 else f + 1
  }

  predicate HasExponent(b: string, f: nat) { CharAt(b, f, 'e') || CharAt(b, f, 'E') }

  lemma ExponentFound(b: string, f: nat) returns (e: nat)
    requires f <= |b| && (HasExponent(b, f) ==> DigitAt(b, ExponentStart(b, f)))
    ensures e == (if HasExponent(b, f) then SkipDigits(b, ExponentStart(b, f)) else f) && f <= e <= |b|
    ensures f < e <==> HasExponent(b, f)
    ensures f < e ==> ExponentStart(b, f) < e && (forall k :: ExponentStart(b, f) <= k < e ==> IsDigit(b[k])) && !DigitAt(b, e)
  {
    hide IsDigit, SkipDigits;
    e := if HasExponent(b, f) then SkipDigits(b, ExponentStart(b, f)) else f;
    if HasExponent(b, f) {
      SkipDigitsIff(b, ExponentStart(b, f), e);
    }
  }

  lemma NumberEndIs(b: string, i: nat)
    requires i <= |b| && NumberEnd(b, i).Some?
    ensures var p := if CharAt(b, i, '-') then i + 1 else i;
            && DigitAt(b, p)
            && var q := if b[p] == '0' then p + 1 else SkipDigits(b, p + 1);
            && (CharAt(b, q, '.') ==> DigitAt(b, q + 1))
            && var f := if CharAt(b, q, '.') then SkipDigits(b, q + 1) else q;
            && (HasExponent(b, f) ==> DigitAt(b, ExponentStart(b, f)))
            && NumberEnd(b, i).value == if HasExponent(b, f) then SkipDigits(b, ExponentStart(b, f)) else f
  {
    hide IsDigit, SkipDigits;
  }

  lemma ScanFinds(b: string, i: nat) returns (c: Cuts)
    requires i <= |b| && NumberEnd(b, i).Some?
    ensures CutsAt(b, i, c) && StopsAt(b, c) && c.end == NumberEnd(b, i).value
  {
    hide IsDigit, SkipDigits, NumberEnd;
    NumberEndIs(b, i);
    var p := if CharAt(b, i, '-') then i + 1 else i;
    var q := WholeFound(b, p);
    var f := FractionFound(b, q);
    var e := ExponentFound(b, f);
    c := Cuts(p, q, f, e);
  }

  lemma DigitsAreNoSigns(b: string)
    ensures forall k :: 0 <= k < |b| && IsDigit(b[k]) ==> b[k] != '-' && b[k] != '+' && b[k] != '.' && b[k] != 'e' && b[k] != 'E'
  {
  }

  lemma NumberEndOf(b: string, i: nat, p: nat, q: nat, f: nat)
    requires i <= |b| && p == if CharAt(b, i, '-') then i + 1 else i
    requires DigitAt(b, p) && q == if b[p] == '0' then p + 1 else SkipDigits(b, p + 1)
    requires (CharAt(b, q, '.') ==> DigitAt(b, q + 1)) && f == if CharAt(b, q, '.') then SkipDigits(b, q + 1) else q
    requires HasExponent(b, f) ==> DigitAt(b, ExponentStart(b, f))
    ensures NumberEnd(b, i) == Some(if HasExponent(b, f) then SkipDigits(b, ExponentStart(b, f)) else f)
  {
    hide IsDigit, SkipDigits;
  }

  lemma ScanTakes(b: string, i: nat, c: Cuts)
    requires CutsAt(b, i, c) && StopsAt(b, c)
    ensures NumberEnd(b, i) == Some(c.end)
  {
    hide IsDigit, SkipDigits, NumberEnd;
    DigitsAreNoSigns(b);
    if b[c.whole] != '0' {
      SkipDigitsIff(b, c.whole + 1, c.fraction);
    }
    if c.fraction < c.exponent {
      SkipDigitsIff(b, c.fraction + 1, c.exponent);
    }
    if c.exponent < c.end {
      SkipDigitsIff(b, ExponentStart(b, c.exponent), c.end);
    }
    NumberEndOf(b, i, c.whole, c.fraction, c.exponent);
  }

  lemma SliceParts(b: string, i: nat, c: Cuts)
    requires i <= c.whole <= c.fraction <= c.exponent <= c.end <= |b|
    ensures b[i..c.end] == b[i..c.whole] + b[c.whole..c.fraction] + b[c.fraction..c.exponent] + b[c.exponent..c.end]
  {
  }

  lemma FractionIff(b: string, i: nat, j: nat)
    requires i <= j <= |b|
    ensures Fraction(b[i..j]) <==> i == j || (b[i] == '.' && i + 1 < j && forall k :: i + 1 <= k < j ==> IsDigit(b[k]))
  {
    hide IsDigit, DigitRun;
    if i < j {
      SliceDrop(b, i, j, 1);
      RunIff(b, i + 1, j);
    }
  }

  lemma ExponentIff(b: string, i: nat, j: nat)
    requires i <= j <= |b|
    ensures Exponent(b[i..j]) <==>
            i == j || ((b[i] == 'e' || b[i] == 'E') && ExponentStart(b, i) < j && forall k :: ExponentStart(b, i) <= k < j ==> IsDigit(b[k]))
  {
    hide IsDigit, DigitRun;
    DigitsAreNoSigns(b);
    if i < j {
      SliceDrop(b, i, j, 1);
      RunIff(b, i + 1, j);
      if i + 2 <= j {
        SliceDrop(b, i, j, 2);
        RunIff(b, i + 2, j);
      }
    }
  }

  /** The parts and their positions. */
  lemma PartsByCuts(b: string, i: nat, c: Cuts, p: NumberParts)
    requires i <= c.whole <= c.fraction <= c.exponent <= c.end <= |b|
    requires p == NumberParts(b[i..c.whole], b[c.whole..c.fraction], b[c.fraction..c.exponent], b[c.exponent..c.end])
    ensures IsNumber(b[i..c.end], p) <==> CutsAt(b, i, c)
    ensures CutsAt(b, i, c) ==> ((c.end < |b| ==> !Continues(p, b[c.end])) <==> StopsAt(b, c))
  {
    hide IsDigit, DigitRun, Fraction, Exponent, DigitByte;
    SliceParts(b, i, c);
    RunIff(b, c.whole, c.fraction);
    FractionIff(b, c.fraction, c.exponent);
    ExponentIff(b, c.exponent, c.end);
    assert c.whole == i + 1 ==> b[i..c.whole] == [b[i]];
    assert c.whole < c.fraction ==> (p.whole[0] == b[c.whole] && (p.whole == "0" <==> b[c.whole] == '0' && c.fraction == c.whole + 1));
    if c.end < |b| {
      DigitTable(b[c.end]);
    }
  }

  lemma CutsOf(b: string, i: nat, j: nat, p: NumberParts) returns (c: Cuts)
    requires i <= j <= |b| && b[i..j] == p.sign + p.whole + p.fraction + p.exponent
    ensures i <= c.whole <= c.fraction <= c.exponent <= c.end == j
    ensures p == NumberParts(b[i..c.whole], b[c.whole..c.fraction], b[c.fraction..c.exponent], b[c.exponent..c.end])
  {
    hide Holds;
    var x, y, z, e := p.sign, p.whole, p.fraction, p.exponent;
    c := Cuts(i + |x|, i + |x| + |y|, i + |x| + |y| + |z|, j);
    HoldsSliceOf(b, i, j);
    assert x + y + z + e == "" + x + (y + z + e) && x + y + z + e == x + y + (z + e) && x + y + z + e == (x + y) + z + e && x + y + z + e == (x + y + z) + e + "";
    HoldsPart(b, i, "", x, y + z + e);
    HoldsPart(b, i, x, y, z + e);
    HoldsPart(b, i, x + y, z, e);
    HoldsPart(b, i, x + y + z, e, "");
    HoldsIs(b, i, x);
    HoldsIs(b, i + |x|, y);
    HoldsIs(b, i + |x + y|, z);
    HoldsIs(b, i + |x + y + z|, e);
  }

  lemma HoldsSliceOf(b: string, i: nat, j: nat)
    requires i <= j <= |b|
    ensures Holds(b, i, b[i..j])
  {
  }

  /** A number ends exactly where its parts end and nothing continues them. */
  lemma NumberIff(b: string, i: nat, j: nat)
    requires i <= |b|
    ensures NumberEnd(b, i) == Some(j) <==> exists p :: NumberAt(b, i, j, p)
  {
    hide NumberEnd, IsNumber, CutsAt, StopsAt, Continues;
    forall p | NumberAt(b, i, j, p)
      ensures NumberEnd(b, i) == Some(j)
    {
      assert b[i..j] == p.sign + p.whole + p.fraction + p.exponent by { NumberJoins(b[i..j], p); }
      var c := CutsOf(b, i, j, p);
      PartsByCuts(b, i, c, p);
      ScanTakes(b, i, c);
    }
    if NumberEnd(b, i) == Some(j) {
      var c := ScanFinds(b, i);
      CutsOrdered(b, i, c);
      var p := NumberParts(b[i..c.whole], b[c.whole..c.fraction], b[c.fraction..c.exponent], b[c.exponent..c.end]);
      PartsByCuts(b, i, c, p);
      assert NumberAt(b, i, j, p);
    }
  }

  lemma NumberJoins(s: string, p: NumberParts)
    requires IsNumber(s, p)
    ensures s == p.sign + p.whole + p.fraction + p.exponent
  {
  }

  lemma CutsOrdered(b: string, i: nat, c: Cuts)
    requires CutsAt(b, i, c)
    ensures i <= c.whole <= c.fraction <= c.exponent <= c.end <= |b|
  {
  }

  // ---------------------------------------------------------------------
  // Values

  ghost predicate WordAt(b: string, i: nat, j: nat, word: string) { i <= j <= |b| && b[i..j] == word }

  /** The text of a value, without blanks around it, and what it means: a string up to its first zero byte, shorter
      than 20000000 bytes and not empty; a number shorter than 64 bytes, as the C library reads it. */
  ghost predicate ValueAt(b: string, i: nat, j: nat, v: Value, numbers: Numbers)
    requires i <= j <= |b|
    decreases j - i, 0
  {
    match v
    case Null => WordAt(b, i, j, "null")
    case Bool(t) => WordAt(b, i, j, if t then "true" else "false")
    case Number(bits) => j - i < 64 && bits == numbers.read(b[i..j]) && exists p :: NumberAt(b, i, j, p)
    case Int64(_) => false
    case Str(s) => 0 < |s| < 20000000 && exists t :: StringAt(b, i, j, t) && s == UpToZero(t)
    case Array(items) => i + 2 <= j && b[i] == '[' && b[j - 1] == ']' && ListAt(b, i + 1, j - 1, items, true, numbers)
    case Object(fields) => i + 2 <= j && b[i] == '{' && b[j - 1] == '}' && ListAt(b, i + 1, j - 1, fields, false, numbers)
  }

  /** What stands between brackets. */
  ghost predicate ListAt(b: string, i: nat, j: nat, items: Items, isArray: bool, numbers: Numbers)
    requires i <= j <= |b|
    decreases j - i, 4
  {
    (items.Nothing? && Gap(b, i, j)) || EntriesAt(b, i, j, Nothing, items, isArray, numbers)
  }

  /** Entries with commas between them, behind those before. */
  ghost predicate EntriesAt(b: string, i: nat, j: nat, before: Items, items: Items, isArray: bool, numbers: Numbers)
    requires i <= j <= |b|
    decreases j - i, 3
  {
    || ItemAt(b, i, j, before, items, isArray, numbers)
    || exists k, next :: i <= k < j && b[k] == ',' && ItemAt(b, i, k, before, next, isArray, numbers)
                         && EntriesAt(b, k + 1, j, next, items, isArray, numbers)
  }

  /** An element of an array, or a key, a colon and a value, with blanks and comments around each of them. A key that is
      there already has its value changed; keys are neither empty nor too long. */
  ghost predicate ItemAt(b: string, i: nat, j: nat, before: Items, items: Items, isArray: bool, numbers: Numbers)
    requires i <= j <= |b|
    decreases j - i, 2
  {
    if isArray then
      items.More? && items.init == before && items.key == "" && SpacedValueAt(b, i, j, items.value, numbers)
    else
      exists k, key, v :: i <= k <= j && KeyAt(b, i, k, key) && SpacedValueAt(b, k, j, v, numbers)
                          && SetField(before, UpToZero(key), v) == Some(items)
  }

  ghost predicate KeyAt(b: string, i: nat, k: nat, key: string) {
    exists p, q :: i <= p < q < k <= |b| && Gap(b, i, p) && StringAt(b, p, q, key) && Gap(b, q, k - 1) && b[k - 1] == ':'
  }

  ghost predicate SpacedValueAt(b: string, i: nat, j: nat, v: Value, numbers: Numbers)
    requires i <= j <= |b|
    decreases j - i, 1
  {
    exists p, q :: i <= p < q <= j && Gap(b, i, p) && ValueAt(b, p, q, v, numbers) && Gap(b, q, j)
  }

  // ---------------------------------------------------------------------
  // Everything of this form is read

  lemma NumberStarts(b: string, i: nat, j: nat, p: NumberParts)
    requires NumberAt(b, i, j, p)
    ensures i < j && (b[i] == '-' || IsDigit(b[i]))
  {
    var s := b[i..j];
    assert s[0] == b[i];
    DigitTable(p.whole[0]);
    assert p.sign == "" ==> s[0] == p.whole[0];
  }

  lemma SignIsNoGap(b: string, i: nat)
    requires i < |b| && (b[i] == '-' || IsDigit(b[i]) || b[i] in "\"[{tfn,]}:")
    ensures GapEnds(b, i)
  {
  }

  lemma ScalarRead(b: string, i: nat, j: nat, v: Value, numbers: Numbers)
    requires i <= j <= |b| && ValueAt(b, i, j, v, numbers) && !v.Array? && !v.Object?
    ensures i < j && GapEnds(b, i) && b[i] != '{' && b[i] != '[' && b[i] != ']' && b[i] != '}'
    ensures ParseScalar(b, i, numbers) == Some(Parsed(v, j))
  {
    hide NumberEnd, NumberAt, StringAt, Gap, GapEnds, UpToZero, ParseChars, IsDigit;
    match v {
      case Number(_) =>
        var p :| NumberAt(b, i, j, p);
        NumberStarts(b, i, j, p);
        NumberIff(b, i, j);
        DigitIsNoBracket(b[i]);
      case Str(s) =>
        var t :| StringAt(b, i, j, t) && s == UpToZero(t);
        StringOpens(b, i, j, t);
        StringIff(b, i, j, t);
      case _ =>
        WordStarts(b, i, j, v, numbers);
    }
    SignIsNoGap(b, i);
  }

  lemma StringOpens(b: string, i: nat, j: nat, s: string)
    requires StringAt(b, i, j, s)
    ensures i < j <= |b| && b[i] == '"'
  {
  }

  lemma DigitIsNoBracket(c: char)
    ensures IsDigit(c) ==> c != '{' && c != '[' && c != ']' && c != '}' && c != '"'
  {
  }

  lemma WordStarts(b: string, i: nat, j: nat, v: Value, numbers: Numbers)
    requires i <= j <= |b| && ValueAt(b, i, j, v, numbers) && (v.Null? || v.Bool?)
    ensures i < j && b[i] in "tfn" && !IsDigit(b[i]) && ParseScalar(b, i, numbers) == Some(Parsed(v, j))
  {
    assert b[i] == b[i..j][0];
  }

  lemma {:induction false} ValueRead(b: string, start: nat, i: nat, j: nat, v: Value, numbers: Numbers)
    requires start <= i <= j <= |b| && Gap(b, start, i) && ValueAt(b, i, j, v, numbers)
    ensures i < j && GapEnds(b, i) && b[i] != ']' && b[i] != '}'
    ensures ParseValue(b, start, numbers) == Some(Parsed(v, j))
    decreases j - i, 0
  {
    hide ParseScalar, ParseBracketed, SkipSpace, Gap, GapEnds, ListAt, StringAt, NumberAt, UpToZero;
    if v.Array? || v.Object? {
      SignIsNoGap(b, i);
      ListRead(b, i + 1, j - 1, if v.Array? then v.items else v.fields, v.Array?, numbers);
    } else {
      ScalarRead(b, i, j, v, numbers);
    }
    SkipIff(b, start, i);
  }

  lemma {:induction false} ListRead(b: string, i: nat, j: nat, items: Items, isArray: bool, numbers: Numbers)
    requires i <= j < |b| && b[j] == (if isArray then ']' else '}') && ListAt(b, i, j, items, isArray, numbers)
    ensures ParseBracketed(b, i, isArray, numbers) == Some(Parsed(items, j + 1))
    decreases j - i, 4
  {
    hide ParseItems, SkipSpace, Gap, GapEnds, EntriesAt;
    SignIsNoGap(b, j);
    if items.Nothing? && Gap(b, i, j) {
      SkipIff(b, i, j);
    } else {
      EntriesRead(b, i, j, Nothing, items, isArray, numbers);
      SkipTwice(b, i);
      SameEntries(b, i, SkipSpace(b, i), Nothing, isArray, numbers);
    }
  }

  lemma SkipTwice(b: string, i: nat)
    requires i <= |b|
    ensures SkipSpace(b, SkipSpace(b, i)) == SkipSpace(b, i)
  {
    hide SkipSpace;
    SkipReaches(b, i);
    EndsSkipping(b, SkipSpace(b, i));
  }

  /** Blanks before an entry do not matter. */
  lemma SameEntries(b: string, x: nat, y: nat, items: Items, isArray: bool, numbers: Numbers)
    requires x <= |b| && y <= |b| && SkipSpace(b, x) == SkipSpace(b, y)
    ensures ParseItems(b, x, items, isArray, numbers) == ParseItems(b, y, items, isArray, numbers)
  {
    hide ParseValue, ParseChars, SkipSpace;
  }

  lemma {:induction false} EntriesRead(b: string, i: nat, j: nat, before: Items, items: Items, isArray: bool, numbers: Numbers)
    requires i <= j < |b| && b[j] == (if isArray then ']' else '}') && EntriesAt(b, i, j, before, items, isArray, numbers)
    ensures ParseItems(b, i, before, isArray, numbers) == Some(Parsed(items, j + 1))
    ensures !CharAt(b, SkipSpace(b, i), b[j])
    decreases j - i, 3
  {
    hide ParseEntry, SkipSpace, ItemAt;
    if ItemAt(b, i, j, before, items, isArray, numbers) {
      var at := EntryRead(b, i, j, before, items, isArray, numbers);
    } else {
      var k, next :| i <= k < j && b[k] == ',' && ItemAt(b, i, k, before, next, isArray, numbers)
                     && EntriesAt(b, k + 1, j, next, items, isArray, numbers);
      var at := EntryRead(b, i, k, before, next, isArray, numbers);
      EntriesRead(b, k + 1, j, next, items, isArray, numbers);
    }
  }

  lemma {:induction false} EntryRead(b: string, i: nat, j: nat, before: Items, items: Items, isArray: bool, numbers: Numbers)
    returns (at: nat)
    requires i <= j < |b| && b[j] in ",]}" && ItemAt(b, i, j, before, items, isArray, numbers)
    ensures at <= |b| && ParseEntry(b, i, before, isArray, numbers) == Some(Parsed(items, at)) && SkipSpace(b, at) == j
    ensures var first := SkipSpace(b, i); first < |b| && b[first] != ']' && b[first] != '}'
    decreases j - i, 2
  {
    hide ParseValue, SkipSpace, ParseChars, ValueAt, Gap, GapEnds, StringAt, UpToZero, SetField;
    SignIsNoGap(b, j);
    if isArray {
      at := SpacedRead(b, i, j, items.value, numbers);
    } else {
      var k, key, v :| i <= k <= j && KeyAt(b, i, k, key) && SpacedValueAt(b, k, j, v, numbers)
                       && SetField(before, UpToZero(key), v) == Some(items);
      KeyRead(b, i, k, key);
      at := SpacedRead(b, k, j, v, numbers);
    }
  }

  lemma KeyRead(b: string, i: nat, k: nat, key: string)
    requires KeyAt(b, i, k, key)
    ensures i < k <= |b|
    ensures var p := SkipSpace(b, i);
            && CharAt(b, p, '"') && ParseChars(b, p + 1, "").Some?
            && var r := ParseChars(b, p + 1, "").value;
               r.value == key && SkipSpace(b, r.end) == k - 1 && b[k - 1] == ':'
  {
    hide SkipSpace, ParseChars, Gap, GapEnds, StringAt;
    var p, q :| i <= p < q < k <= |b| && Gap(b, i, p) && StringAt(b, p, q, key) && Gap(b, q, k - 1) && b[k - 1] == ':';
    StringOpens(b, p, q, key);
    StringIff(b, p, q, key);
    SignIsNoGap(b, p);
    SkipIff(b, i, p);
    SignIsNoGap(b, k - 1);
    SkipIff(b, q, k - 1);
  }

  /** The value is read from the place where the blanks before it begin or end. */
  lemma {:induction false} SpacedRead(b: string, i: nat, j: nat, v: Value, numbers: Numbers) returns (at: nat)
    requires i <= j <= |b| && GapEnds(b, j) && SpacedValueAt(b, i, j, v, numbers)
    ensures at <= |b| && SkipSpace(b, at) == j
    ensures ParseValue(b, SkipSpace(b, i), numbers) == Some(Parsed(v, at))
    ensures var first := SkipSpace(b, i); first < |b| && b[first] != ']' && b[first] != '}'
    decreases j - i, 1
  {
    hide ParseValue, SkipSpace, ValueAt, Gap, GapEnds;
    var p, q :| i <= p < q <= j && Gap(b, i, p) && ValueAt(b, p, q, v, numbers) && Gap(b, q, j);
    GapNothing(b, p);
    ValueRead(b, p, p, q, v, numbers);
    SkipIff(b, i, p);
    SkipIff(b, q, j);
    at := q;
  }

  lemma GapNothing(b: string, p: nat)
    ensures Gap(b, p, p)
  {
  }

  // ---------------------------------------------------------------------
  // Nothing else is read

  lemma ScalarFound(b: string, i: nat, numbers: Numbers)
    requires i < |b| && ParseScalar(b, i, numbers).Some? && b[i] != '{' && b[i] != '['
    ensures var r := ParseScalar(b, i, numbers).value; ValueAt(b, i, r.end, r.value, numbers)
  {
    hide NumberEnd, NumberAt, StringAt, UpToZero, ParseChars, IsDigit;
    var r := ParseScalar(b, i, numbers).value;
    if b[i] == '"' {
      var t := ParseChars(b, i + 1, "").value;
      StringIff(b, i, t.end, t.value);
    } else if b[i] == '-' || IsDigit(b[i]) {
      NumberIff(b, i, r.end);
    }
  }

  lemma {:induction false} ValueFound(b: string, start: nat, numbers: Numbers)
    requires start <= |b| && ParseValue(b, start, numbers).Some?
    ensures var i, r := SkipSpace(b, start), ParseValue(b, start, numbers).value;
            i < r.end && ValueAt(b, i, r.end, r.value, numbers)
    decreases |b| - start, 1
  {
    hide ParseScalar, ParseBracketed, SkipSpace, ListAt, StringAt, NumberAt, UpToZero;
    var i := SkipSpace(b, start);
    if b[i] == '{' || b[i] == '[' {
      ListFound(b, i + 1, b[i] == '[', numbers);
    } else {
      ScalarFound(b, i, numbers);
    }
  }

  lemma ListFound(b: string, i: nat, isArray: bool, numbers: Numbers)
    requires i <= |b| && ParseBracketed(b, i, isArray, numbers).Some?
    ensures var r := ParseBracketed(b, i, isArray, numbers).value; var j := r.end - 1;
            i <= j && b[j] == (if isArray then ']' else '}') && ListAt(b, i, j, r.value, isArray, numbers)
    decreases |b| - i, 5
  {
    hide ParseItems, SkipSpace, Gap, EntriesAt;
    var pos := SkipSpace(b, i);
    if CharAt(b, pos, if isArray then ']' else '}') {
      SkipIff(b, i, pos);
    } else {
      SkipTwice(b, i);
      SameEntries(b, i, pos, Nothing, isArray, numbers);
      EntriesFound(b, i, Nothing, isArray, numbers);
    }
  }

  lemma {:induction false} EntriesFound(b: string, i: nat, before: Items, isArray: bool, numbers: Numbers)
    requires i <= |b| && ParseItems(b, i, before, isArray, numbers).Some?
    ensures var r := ParseItems(b, i, before, isArray, numbers).value; var j := r.end - 1;
            i <= j && b[j] == (if isArray then ']' else '}') && EntriesAt(b, i, j, before, r.value, isArray, numbers)
    decreases |b| - i, 4
  {
    hide ParseEntry, SkipSpace, ItemAt;
    EntryFound(b, i, before, isArray, numbers);
    var e := ParseEntry(b, i, before, isArray, numbers).value;
    var k := SkipSpace(b, e.end);
    if CharAt(b, k, ',') {
      EntriesFound(b, k + 1, e.value, isArray, numbers);
    }
  }

  lemma EntryFound(b: string, i: nat, before: Items, isArray: bool, numbers: Numbers)
    requires i <= |b| && ParseEntry(b, i, before, isArray, numbers).Some?
    ensures var e := ParseEntry(b, i, before, isArray, numbers).value;
            i <= SkipSpace(b, e.end) && ItemAt(b, i, SkipSpace(b, e.end), before, e.value, isArray, numbers)
    decreases |b| - i, 3
  {
    hide ParseValue, SkipSpace, ParseChars, ValueAt, Gap, GapEnds, StringAt, UpToZero, SetField, KeyAt, SpacedValueAt;
    if isArray {
      SpacedFound(b, i, numbers);
    } else {
      KeyFound(b, i);
      var key := ParseChars(b, SkipSpace(b, i) + 1, "").value;
      var k := SkipSpace(b, key.end) + 1;
      SpacedFound(b, k, numbers);
    }
  }

  lemma KeyFound(b: string, i: nat)
    requires i <= |b| && CharAt(b, SkipSpace(b, i), '"') && ParseChars(b, SkipSpace(b, i) + 1, "").Some?
    ensures var key := ParseChars(b, SkipSpace(b, i) + 1, "").value; var colon := SkipSpace(b, key.end);
            CharAt(b, colon, ':') ==> i <= colon && KeyAt(b, i, colon + 1, key.value)
  {
    hide SkipSpace, ParseChars, Gap, GapEnds, StringAt;
    var p := SkipSpace(b, i);
    var key := ParseChars(b, p + 1, "").value;
    SkipIff(b, i, p);
    StringIff(b, p, key.end, key.value);
    SkipIff(b, key.end, SkipSpace(b, key.end));
  }

  lemma SpacedFound(b: string, i: nat, numbers: Numbers)
    requires i <= |b| && ParseValue(b, SkipSpace(b, i), numbers).Some?
    ensures var r := ParseValue(b, SkipSpace(b, i), numbers).value;
            i <= SkipSpace(b, r.end) && SpacedValueAt(b, i, SkipSpace(b, r.end), r.value, numbers)
    decreases |b| - i, 2
  {
    hide ParseValue, SkipSpace, ValueAt, Gap, GapEnds;
    var p := SkipSpace(b, i);
    SkipIff(b, i, p);
    SkipTwice(b, i);
    ValueFound(b, p, numbers);
    var r := ParseValue(b, p, numbers).value;
    SkipIff(b, r.end, SkipSpace(b, r.end));
  }

  /** Exactly the texts that are one value, with blanks and comments anywhere between its parts, are read, and as this value. */
  lemma ParseIff(b: string, v: Value, numbers: Numbers)
    ensures Parse(b, numbers) == Some(v) <==> SpacedValueAt(b, 0, |b|, v, numbers)
  {
    hide ParseValue, SkipSpace, ValueAt, Gap;
    if SpacedValueAt(b, 0, |b|, v, numbers) {
      var at := SpacedRead(b, 0, |b|, v, numbers);
    }
    if Parse(b, numbers) == Some(v) {
      SpacedFound(b, 0, numbers);
    }
  }

  /** A number, whatever follows it that cannot be part of it, is read up to its end. */
  lemma NumberRead(b: string, i: nat, j: nat, p: NumberParts, numbers: Numbers)
    requires NumberAt(b, i, j, p) && j - i < 64
    ensures i <= j <= |b|
    ensures ParseValue(b, i, numbers) == Some(Parsed(Number(numbers.read(b[i..j])), j))
  {
    hide ParseValue, Gap, NumberAt;
    NumberWithin(b, i, j, p);
    GapNothing(b, i);
    ValueRead(b, i, i, j, Number(numbers.read(b[i..j])), numbers);
  }

  lemma NumberWithin(b: string, i: nat, j: nat, p: NumberParts)
    requires NumberAt(b, i, j, p)
    ensures i <= j <= |b|
  {
  }
}
