/** Searching, trimming and reading numbers in strings of bytes. */
module Text {

  datatype Option<+T> = None | Some(value: T)

  /** Position of the first c, or -1. */
  function IndexOf(s: string, c: char): (r: int)
    ensures -1 <= r < |s|
    ensures r >= 0 ==> s[r] == c && c !in s[..r]
    ensures r < 0 ==> c !in s
  {
    if s == "" then -1
    else if s[0] == c then 0
    else
      var r := IndexOf(s[1..], c);
      assert r >= 0 ==> s[..r + 1] == [s[0]] + s[1..][..r];
      if r < 0 then -1 else r + 1
  }

  predicate IsSpace(c: char) {
    c == ' ' || c == '\t' || c == '\n' || c == '\r' || c == 11 as char || c == 12 as char
  }

  predicate IsDigit(c: char) { '0' <= c <= '9' }

  predicate IsHexDigit(c: char) {
    IsDigit(c) || 'a' <= c <= 'f' || 'A' <= c <= 'F'
  }

  function HexDigitValue(c: char): (v: nat)
    requires IsHexDigit(c)
    ensures v < 16
  {
    if IsDigit(c) then (c - '0') as nat
    else if 'a' <= c <= 'f' then (c - 'a') as nat + 10
    else (c - 'A') as nat + 10
  }

  function ToLower(c: char): char {
    if 'A' <= c <= 'Z' then c - 'A' + 'a' else c
  }

  function Lower(s: string): (r: string)
    ensures |r| == |s|
    ensures forall i :: 0 <= i < |s| ==> r[i] == ToLower(s[i])
  {
    if s == "" then "" else [ToLower(s[0])] + Lower(s[1..])
  }

  function TrimLeft(s: string): (r: string)
    ensures |r| <= |s|
  {
    if s != "" && IsSpace(s[0]) then TrimLeft(s[1..]) else s
  }

  function TrimRight(s: string): (r: string)
    ensures |r| <= |s|
  {
    if s != "" && IsSpace(s[|s| - 1]) then TrimRight(s[..|s| - 1]) else s
  }

  function Trim(s: string): string { TrimRight(TrimLeft(s)) }

  function StripCR(line: string): (r: string)
    ensures |r| <= |line|
  {
    if line != "" && line[|line| - 1] == '\r' then line[..|line| - 1] else line
  }

  /** Value of a digit string in base 10 or 16. */
  function Digits(s: string, base: nat): nat
    requires base == 10 || base == 16
    requires forall c :: c in s ==> if base == 10 then IsDigit(c) else IsHexDigit(c)
  {
    if s == "" then 0 else Digits(s[..|s| - 1], base) * base + HexDigitValue(s[|s| - 1])
  }

  lemma {:induction false} IndexOfIs(s: string, c: char, k: nat)
    requires k < |s| && s[k] == c && c !in s[..k]
    ensures IndexOf(s, c) == k
  {
    if k > 0 {
      assert s[..k] == [s[0]] + s[1..][..k - 1];
      IndexOfIs(s[1..], c, k - 1);
    }
  }

  lemma IndexOfAppend(s: string, t: string, c: char)
    requires IndexOf(s, c) >= 0
    ensures IndexOf(s + t, c) == IndexOf(s, c)
    ensures (s + t)[..IndexOf(s, c)] == s[..IndexOf(s, c)]
    ensures (s + t)[IndexOf(s, c) + 1..] == s[IndexOf(s, c) + 1..] + t
  {
    var k := IndexOf(s, c);
    assert (s + t)[..k] == s[..k];
    IndexOfIs(s + t, c, k);
  }

  lemma DropTake(s: string, a: nat, j: nat)
    requires a + j <= |s|
    ensures s[a..][..j] == s[a..a + j]
  {
  }

  lemma DropDrop(s: string, a: nat, i: nat)
    requires a + i <= |s|
    ensures s[a..][i..] == s[a + i..]
  {
  }

  lemma DropSlice(s: string, a: nat, i: nat, j: nat)
    requires i <= j && a + j <= |s|
    ensures s[a..][i..j] == s[a + i..a + j]
  {
    DropTake(s, a, j);
  }

  lemma SliceTake(s: string, a: nat, b: nat, j: nat)
    requires a <= b <= |s| && j <= b - a
    ensures s[a..b][..j] == s[a..a + j]
  {
  }

  lemma SliceDrop(s: string, a: nat, b: nat, i: nat)
    requires a <= b <= |s| && i <= b - a
    ensures s[a..b][i..] == s[a + i..b]
  {
  }

  /** Position of the first c at or after start, or -1. */
  function IndexFrom(s: string, c: char, start: nat): (r: int)
    ensures r == -1 || (start <= r < |s| && s[r] == c)
  {
    if start > |s| then -1
    else
      var k := IndexOf(s[start..], c);
      if k < 0 then -1 else start + k
  }

  lemma IndexFromIs(s: string, c: char, start: nat, r: int)
    requires start <= |s|
    requires r == -1 || (start <= r < |s| && s[r] == c)
    requires c !in s[start..if r < 0 then |s| else r]
    ensures IndexFrom(s, c, start) == r
  {
    var t := s[start..];
    if r < 0 {
      assert s[start..|s|] == t;
    } else {
      assert s[start..r] == t[..r - start];
      IndexOfIs(t, c, r - start);
    }
  }

  /** The text contains `part` at this position. */
  ghost predicate Holds(text: string, at: nat, part: string) {
    at + |part| <= |text| && text[at..at + |part|] == part
  }

  lemma HoldsIs(b: string, at: nat, s: string)
    requires Holds(b, at, s)
    ensures at + |s| <= |b| && b[at..at + |s|] == s
  {
  }

  lemma HoldsPart(text: string, at: nat, pre: string, part: string, post: string)
    requires Holds(text, at, pre + part + post)
    ensures Holds(text, at + |pre|, part)
  {
    var whole := pre + part + post;
    assert part == whole[|pre|..|pre| + |part|];
    SliceTake(text, at, at + |whole|, |pre| + |part|);
    SliceDrop(text, at, at + |pre| + |part|, |pre|);
  }

  lemma HoldsTwo(text: string, at: nat, x: string, y: string)
    requires Holds(text, at, x + y)
    ensures Holds(text, at, x) && Holds(text, at + |x|, y)
  {
    var whole := x + y;
    assert x == whole[..|x|] && y == whole[|x|..];
    SliceTake(text, at, at + |whole|, |x|);
    SliceDrop(text, at, at + |whole|, |x|);
  }

  /** All pieces of an input. */
  function Concat(pieces: seq<string>): string {
    if pieces == [] then "" else Concat(pieces[..|pieces| - 1]) + pieces[|pieces| - 1]
  }

  lemma ConcatOne(x: string)
    ensures Concat([x]) == x
  {
    assert [x][..0] == [] && "" + x == x;
  }

  lemma {:induction false} ConcatAppend(a: seq<string>, b: seq<string>)
    ensures Concat(a + b) == Concat(a) + Concat(b)
  {
    if b == [] {
      assert a + b == a && Concat(a) + "" == Concat(a);
    } else {
      var last := |b| - 1;
      assert (a + b)[..|a + b| - 1] == a + b[..last];
      ConcatAppend(a, b[..last]);
      assert Concat(a) + (Concat(b[..last]) + b[last]) == Concat(a) + Concat(b[..last]) + b[last];
    }
  }

  // ---------------------------------------------------------------------
  // Printing numbers

  function DigitChar(d: nat): (c: char)
    requires d < 10
    ensures IsDigit(c)
  {
    '0' + d as char
  }

  function Decimal(n: nat): (s: string)
    ensures s != "" && forall c :: c in s ==> IsDigit(c)
  {
    if n < 10 then [DigitChar(n)] else Decimal(n / 10) + [DigitChar(n % 10)]
  }

  function PrintInt(n: int): (s: string)
    ensures s != ""
  {
    if n < 0 then "-" + Decimal(-n) else Decimal(n)
  }

  function HexChar(d: nat): (c: char)
    requires d < 16
    ensures IsHexDigit(c)
  {
    if d < 10 then '0' + d as char else 'a' + (d - 10) as char
  }

  // ---------------------------------------------------------------------
  // JSON strings

  predicate NeedsEscape(c: char) { c == '"' || c == '\\' || c < ' ' }

  /** One byte of a string as it is printed. */
  function EscapeChar(c: char): (r: string)
    ensures r != ""
  {
    if c == '"' then "\\\""
    else if c == '\\' then "\\\\"
    else if c == 8 as char then "\\b"
    else if c == 12 as char then "\\f"
    else if c == '\n' then "\\n"
    else if c == '\r' then "\\r"
    else if c == '\t' then "\\t"
    else if c < ' ' then "\\u00" + [HexChar(c as nat / 16), HexChar(c as nat % 16)]
    else [c]
  }

  function Escape(s: string): string {
    if s == "" then "" else Escape(s[..|s| - 1]) + EscapeChar(s[|s| - 1])
  }

  function Quote(s: string): string { "\"" + Escape(s) + "\"" }

  // ---------------------------------------------------------------------
  // Strings that end at a zero byte

  predicate IsBytes(b: string) { forall i :: 0 <= i < |b| ==> b[i] as nat < 256 }

  /** What C calls a string: no zero byte. */
  predicate IsCString(s: string) { forall i :: 0 <= i < |s| ==> s[i] as nat != 0 }

  type CString = s: string | IsCString(s) witness ""

  /** The bytes before the first zero. */
  function UpToZero(b: string): CString {
    if b == "" || b[0] as nat == 0 then ""
    else
      var rest := UpToZero(b[1..]);
      assert IsCString([b[0]] + rest);
      [b[0]] + rest
  }

  lemma {:induction false} UpToZeroIs(s: CString)
    ensures UpToZero(s) == s
  {
    if s != "" {
      UpToZeroIs(s[1..]);
    }
  }

  lemma {:induction false} UpToZeroCut(s: string, k: nat)
    requires k <= |s| && IsCString(s[..k]) && (k < |s| ==> s[k] as nat == 0)
    ensures UpToZero(s) == s[..k]
  {
    if k > 0 {
      assert s[..k][0] == s[0] && s[1..][..k - 1] == s[..k][1..];
      UpToZeroCut(s[1..], k - 1);
      assert s[..k] == [s[0]] + s[1..][..k - 1];
    }
  }
}
