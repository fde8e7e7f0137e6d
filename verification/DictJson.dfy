/** Printing a tree into a buffer of limited size, and parsing one from it. */
module DictJson {
  import opened Text
  import opened ByteBuffer
  import opened Dict
  import opened DictJsonSpec
  import opened DictJsonRoundTrip
  import opened DictJsonGrammar

  // ---------------------------------------------------------------------
  // Printing

  /** `text` stands at `pos` in a buffer of `len` bytes, and a byte is left for the terminator. */
  ghost predicate Written(before: string, now: string, pos: nat, len: nat, text: string) {
    len <= |before| && pos + |text| < len && now == Splice(before, pos, text)
  }

  lemma WrittenNothing(b: string, pos: nat, len: nat)
    requires pos < len <= |b|
    ensures Written(b, b, pos, len, "")
  {
    SpliceNothing(b, pos);
  }

  lemma WrittenMore(a: string, b: string, c: string, pos: nat, len: nat, x: string, y: string)
    requires Written(a, b, pos, len, x) && Written(b, c, pos + |x|, len, y)
    ensures Written(a, c, pos, len, x + y)
  {
    hide Splice;
    SpliceAfter(a, pos, x, y);
  }

  /** Byte after byte, as long as there is room. */
  method Append(buf: array<char>, pos: nat, len: nat, text: string) returns (ok: bool, next: nat)
    requires pos < len <= buf.Length
    modifies buf
    ensures ok <==> pos + |text| < len
    ensures ok ==> next == pos + |text| && Written(old(buf[..]), buf[..], pos, len, text)
    ensures buf[len..] == old(buf[len..])
  {
    hide Splice, Written;
    ghost var before := buf[..];
    var i := 0;
    next := pos;
    WrittenNothing(before, pos, len);
    assert text[..0] == "";
    while i < |text|
      invariant 0 <= i <= |text| && next == pos + i < len
      invariant Written(before, buf[..], pos, len, text[..i]) && buf[len..] == before[len..]
    {
      if len - next <= 1 {
        return false, next;
      }
      ghost var now := buf[..];
      buf[next] := text[i];
      OneWritten(now, buf[..], next, len, text[i]);
      WrittenMore(before, now, buf[..], pos, len, text[..i], [text[i]]);
      assert text[..i + 1] == text[..i] + [text[i]];
      next := next + 1;
      i := i + 1;
    }
    assert text[..|text|] == text;
    return true, next;
  }

  lemma OneWritten(a: string, b: string, pos: nat, len: nat, c: char)
    requires pos + 1 < len <= |a| && b == a[pos := c]
    ensures Written(a, b, pos, len, [c])
  {
  }

  /** A quoted string, one character after the other. */
  method AppendQuoted(buf: array<char>, pos: nat, len: nat, s: string) returns (ok: bool, next: nat)
    requires pos < len <= buf.Length
    modifies buf
    ensures ok <==> pos + |Quote(s)| < len
    ensures ok ==> next == pos + |Quote(s)| && Written(old(buf[..]), buf[..], pos, len, Quote(s))
    ensures buf[len..] == old(buf[len..])
  {
    hide Written, Escape, EscapeChar;
    ghost var before := buf[..];
    QuoteStart(s);
    ok, next := Append(buf, pos, len, "\"");
    if !ok {
      return;
    }
    var i := 0;
    while i < |s|
      invariant 0 <= i <= |s| && next == pos + |"\"" + Escape(s[..i])| < len
      invariant Written(before, buf[..], pos, len, "\"" + Escape(s[..i])) && buf[len..] == before[len..]
    {
      EscapeStep(s, i);
      ghost var now := buf[..];
      ok, next := Append(buf, next, len, EscapeChar(s[i]));
      if !ok {
        return;
      }
      WrittenMore(before, now, buf[..], pos, len, "\"" + Escape(s[..i]), EscapeChar(s[i]));
      assert "\"" + Escape(s[..i]) + EscapeChar(s[i]) == "\"" + Escape(s[..i + 1]);
      i := i + 1;
    }
    assert s[..|s|] == s;
    ghost var now := buf[..];
    ok, next := Append(buf, next, len, "\"");
    if ok {
      WrittenMore(before, now, buf[..], pos, len, "\"" + Escape(s), "\"");
    }
  }

  lemma QuoteStart(s: string)
    ensures Escape(s[..0]) == "" && "\"" + "" == "\""
  {
  }

  lemma {:induction false} EscapeStep(s: string, i: nat)
    requires i < |s|
    ensures Escape(s[..i + 1]) == Escape(s[..i]) + EscapeChar(s[i]) && |Escape(s[..i + 1])| <= |Escape(s)|
    decreases |s|
  {
    hide EscapeChar;
    assert s[..i + 1][..i] == s[..i];
    var init := s[..|s| - 1];
    if i + 1 < |s| {
      EscapeStep(init, i);
      assert init[..i + 1] == s[..i + 1];
    } else {
      assert s[..i + 1] == s;
    }
  }

  method AppendNewLine(buf: array<char>, pos: nat, len: nat, level: nat, pretty: bool) returns (ok: bool, next: nat)
    requires pos < len <= buf.Length
    modifies buf
    ensures ok <==> pos + |NewLine(level, pretty)| < len
    ensures ok ==> next == pos + |NewLine(level, pretty)| && Written(old(buf[..]), buf[..], pos, len, NewLine(level, pretty))
    ensures buf[len..] == old(buf[len..])
  {
    hide Written;
    ghost var before := buf[..];
    if !pretty {
      WrittenNothing(before, pos, len);
      return true, pos;
    }
    ok, next := Append(buf, pos, len, "\n");
    if !ok {
      return;
    }
    var i := 0;
    assert "\n" + Spaces(0) == "\n";
    while i < level
      invariant 0 <= i <= level && next == pos + |"\n" + Spaces(i)| < len
      invariant Written(before, buf[..], pos, len, "\n" + Spaces(i)) && buf[len..] == before[len..]
    {
      MoreSpaces(i, level);
      ghost var now := buf[..];
      ok, next := Append(buf, next, len, "  ");
      if !ok {
        return;
      }
      WrittenMore(before, now, buf[..], pos, len, "\n" + Spaces(i), "  ");
      assert "\n" + Spaces(i) + "  " == "\n" + Spaces(i + 1);
      i := i + 1;
    }
  }

  lemma {:induction false} MoreSpaces(i: nat, level: nat)
    requires i < level
    ensures |Spaces(i + 1)| <= |Spaces(level)| && Spaces(i + 1) == Spaces(i) + "  "
  {
    if i + 1 < level {
      MoreSpaces(i, level - 1);
    }
  }

  /** Prints a value; fails exactly when its text and a terminator do not fit. */
  method Serialize(v: Value, buf: array<char>, pos: nat, len: nat, level: nat, pretty: bool, numbers: Numbers) returns (ok: bool, next: nat)
    requires pos < len <= buf.Length
    modifies buf
    ensures ok <==> pos + |Print(v, level, pretty, numbers)| < len
    ensures ok ==> next == pos + |Print(v, level, pretty, numbers)| && Written(old(buf[..]), buf[..], pos, len, Print(v, level, pretty, numbers))
    ensures buf[len..] == old(buf[len..])
    decreases v, 1
  {
    hide Written, PrintBracketed, Quote, PrintInt;
    if v.Array? {
      ok, next := SerializeBracketed(v.items, true, buf, pos, len, level, pretty, numbers);
    } else if v.Object? {
      ok, next := SerializeBracketed(v.fields, false, buf, pos, len, level, pretty, numbers);
    } else if v.Str? {
      ok, next := AppendQuoted(buf, pos, len, v.s);
    } else if v.Int64? && !(-SAFE_INTEGER <= v.n <= SAFE_INTEGER) {
      ok, next := AppendQuoted(buf, pos, len, PrintInt(v.n));
    } else if v.Int64? {
      ok, next := Append(buf, pos, len, PrintInt(v.n));
    } else if v.Number? {
      ok, next := Append(buf, pos, len, numbers.show(v.bits));
    } else if v.Bool? {
      ok, next := Append(buf, pos, len, if v.b then "true" else "false");
    } else {
      ok, next := Append(buf, pos, len, "null");
    }
  }

  method SerializeBracketed(items: Items, isArray: bool, buf: array<char>, pos: nat, len: nat, level: nat, pretty: bool, numbers: Numbers)
      returns (ok: bool, next: nat)
    requires pos < len <= buf.Length
    modifies buf
    ensures var text := PrintBracketed(items, isArray, level, pretty, numbers);
            && (ok <==> pos + |text| < len)
            && (ok ==> next == pos + |text| && Written(old(buf[..]), buf[..], pos, len, text))
    ensures buf[len..] == old(buf[len..])
    decreases items, 1, 1
  {
    hide Written, PrintItems, NewLine;
    ghost var before := buf[..];
    ghost var open, line, body, close := Open(isArray), NewLine(level, pretty && items.More?), PrintItems(items, isArray, level, pretty, numbers), Close(isArray);
    ok, next := Append(buf, pos, len, Open(isArray));
    if !ok {
      return;
    }
    ghost var b := buf[..];
    ok, next := AppendNewLine(buf, next, len, level, pretty && items.More?);
    if !ok {
      return;
    }
    WrittenMore(before, b, buf[..], pos, len, open, line);
    b := buf[..];
    ok, next := SerializeItems(items, isArray, buf, next, len, level, pretty, numbers);
    if !ok {
      return;
    }
    WrittenMore(before, b, buf[..], pos, len, open + line, body);
    b := buf[..];
    ok, next := AppendNewLine(buf, next, len, level, pretty && items.More?);
    if !ok {
      return;
    }
    WrittenMore(before, b, buf[..], pos, len, open + line + body, line);
    b := buf[..];
    ok, next := Append(buf, next, len, Close(isArray));
    if ok {
      WrittenMore(before, b, buf[..], pos, len, open + line + body + line, close);
    }
  }

  method SerializeItems(items: Items, isArray: bool, buf: array<char>, pos: nat, len: nat, level: nat, pretty: bool, numbers: Numbers)
      returns (ok: bool, next: nat)
    requires pos < len <= buf.Length
    modifies buf
    ensures var text := PrintItems(items, isArray, level, pretty, numbers);
            && (ok <==> pos + |text| < len)
            && (ok ==> next == pos + |text| && Written(old(buf[..]), buf[..], pos, len, text))
    ensures buf[len..] == old(buf[len..])
    decreases items, 1, 0
  {
    hide Written, PrintItems, Prefix;
    ghost var before := buf[..];
    var i, count := 0, Count(items);
    next := pos;
    WrittenNothing(before, pos, len);
    NothingPrinted(items, isArray, level, pretty, numbers);
    while i < count
      invariant 0 <= i <= count && next == pos + |PrintItems(Prefix(items, i), isArray, level, pretty, numbers)| < len
      invariant Written(before, buf[..], pos, len, PrintItems(Prefix(items, i), isArray, level, pretty, numbers)) && buf[len..] == before[len..]
    {
      ghost var b := buf[..];
      EntryPrinted(items, i, isArray, level, pretty, numbers);
      ok, next := SerializeEntry(items, i, isArray, buf, next, len, level, pretty, numbers);
      if !ok {
        return;
      }
      WrittenMore(before, b, buf[..], pos, len, PrintItems(Prefix(items, i), isArray, level, pretty, numbers),
                  EntryText(items, i, isArray, level, pretty, numbers));
      i := i + 1;
    }
    WholePrefix(items);
    return true, next;
  }

  /** An entry with the comma before it. */
  function EntryText(items: Items, i: nat, isArray: bool, level: nat, pretty: bool, numbers: Numbers): string
    requires i < Count(items)
  {
    var e := EntryAt(items, i);
    Separator(e.init, level, pretty) + (PrintKey(e.key, isArray, pretty) + Print(e.value, level + 1, pretty, numbers))
  }

  lemma NothingPrinted(items: Items, isArray: bool, level: nat, pretty: bool, numbers: Numbers)
    ensures PrintItems(Prefix(items, 0), isArray, level, pretty, numbers) == ""
  {
  }

  lemma {:induction false} PrintPrefix(items: Items, n: nat, isArray: bool, level: nat, pretty: bool, numbers: Numbers)
    requires n <= Count(items)
    ensures |PrintItems(Prefix(items, n), isArray, level, pretty, numbers)| <= |PrintItems(items, isArray, level, pretty, numbers)|
  {
    hide Print, PrintKey, Separator;
    if n < Count(items) {
      PrintPrefix(items.init, n, isArray, level, pretty, numbers);
    }
  }

  lemma EntryPrinted(items: Items, i: nat, isArray: bool, level: nat, pretty: bool, numbers: Numbers)
    requires i < Count(items)
    ensures PrintItems(Prefix(items, i + 1), isArray, level, pretty, numbers) ==
            PrintItems(Prefix(items, i), isArray, level, pretty, numbers) + EntryText(items, i, isArray, level, pretty, numbers)
    ensures |PrintItems(Prefix(items, i + 1), isArray, level, pretty, numbers)| <= |PrintItems(items, isArray, level, pretty, numbers)|
  {
    hide Print, PrintKey, Separator, Prefix;
    PrintPrefix(items, i + 1, isArray, level, pretty, numbers);
    var e := EntryAt(items, i);
    var p, s, t := PrintItems(e.init, isArray, level, pretty, numbers), Separator(e.init, level, pretty),
                   PrintKey(e.key, isArray, pretty) + Print(e.value, level + 1, pretty, numbers);
    assert p + s + t == p + (s + t);
  }

  method SerializeEntry(items: Items, i: nat, isArray: bool, buf: array<char>, pos: nat, len: nat, level: nat, pretty: bool, numbers: Numbers)
      returns (ok: bool, next: nat)
    requires pos < len <= buf.Length && i < Count(items)
    modifies buf
    ensures var text := EntryText(items, i, isArray, level, pretty, numbers);
            && (ok <==> pos + |text| < len)
            && (ok ==> next == pos + |text| && Written(old(buf[..]), buf[..], pos, len, text))
    ensures buf[len..] == old(buf[len..])
    decreases items, 0
  {
    hide Written, Print, NewLine, Prefix, Quote;
    ghost var before := buf[..];
    var e := EntryAt(items, i);
    ghost var sep, key, text := Separator(e.init, level, pretty), PrintKey(e.key, isArray, pretty), Print(e.value, level + 1, pretty, numbers);
    ok, next := true, pos;
    WrittenNothing(before, pos, len);
    if i > 0 {
      ok, next := SerializeComma(buf, pos, len, level, pretty);
      if !ok {
        return;
      }
    }
    ghost var b := buf[..];
    ghost var at := next;
    WrittenNothing(b, at, len);
    if !isArray {
      ok, next := SerializeKey(e.key, buf, next, len, pretty);
      if !ok {
        return;
      }
    }
    ghost var c := buf[..];
    ok, next := Serialize(e.value, buf, next, len, level + 1, pretty, numbers);
    if ok {
      WrittenMore(b, c, buf[..], at, len, key, text);
      WrittenMore(before, b, buf[..], pos, len, sep, key + text);
    }
  }

  method SerializeComma(buf: array<char>, pos: nat, len: nat, level: nat, pretty: bool) returns (ok: bool, next: nat)
    requires pos < len <= buf.Length
    modifies buf
    ensures var text := "," + NewLine(level, pretty);
            (ok <==> pos + |text| < len) && (ok ==> next == pos + |text| && Written(old(buf[..]), buf[..], pos, len, text))
    ensures buf[len..] == old(buf[len..])
  {
    hide Written, NewLine;
    ghost var before := buf[..];
    ok, next := Append(buf, pos, len, ",");
    if ok {
      ghost var b := buf[..];
      ok, next := AppendNewLine(buf, next, len, level, pretty);
      if ok {
        WrittenMore(before, b, buf[..], pos, len, ",", NewLine(level, pretty));
      }
    }
  }

  method SerializeKey(key: CString, buf: array<char>, pos: nat, len: nat, pretty: bool) returns (ok: bool, next: nat)
    requires pos < len <= buf.Length
    modifies buf
    ensures var text := PrintKey(key, false, pretty);
            (ok <==> pos + |text| < len) && (ok ==> next == pos + |text| && Written(old(buf[..]), buf[..], pos, len, text))
    ensures buf[len..] == old(buf[len..])
  {
    hide Written, Quote;
    ghost var before := buf[..];
    ok, next := AppendQuoted(buf, pos, len, key);
    if !ok {
      return;
    }
    ghost var b := buf[..];
    ok, next := Append(buf, next, len, ":");
    if !ok {
      return;
    }
    WrittenMore(before, b, buf[..], pos, len, Quote(key), ":");
    if pretty {
      b := buf[..];
      ok, next := Append(buf, next, len, " ");
      if ok {
        WrittenMore(before, b, buf[..], pos, len, Quote(key) + ":", " ");
      }
    } else {
      assert Quote(key) + ":" + "" == Quote(key) + ":";
    }
  }

  /** The public operation: a text with its terminator, or an empty one if it does not fit. */
  method SerializeJson(v: Value, buf: array<char>, len: nat, pretty: bool, numbers: Numbers) returns (ok: bool, size: nat)
    requires len <= buf.Length
    modifies buf
    ensures var text := Print(v, 0, pretty, numbers);
            && (ok <==> |text| < len)
            && (ok ==> size == |text| && buf[..size] == text && buf[size] == 0 as char)
            && (!ok && len > 0 ==> buf[0] == 0 as char)
    ensures buf[len..] == old(buf[len..])
  {
    hide Print;
    size := 0;
    if len == 0 {
      return false, 0;
    }
    ok, size := Serialize(v, buf, 0, len, 0, pretty, numbers);
    if !ok {
      buf[0] := 0 as char;
      return;
    }
    ghost var text := Print(v, 0, pretty, numbers);
    assert buf[..size] == text;
    buf[size] := 0 as char;
  }

  // ---------------------------------------------------------------------
  // Parsing

  class JsonReader {
    const b: string
    const numbers: Numbers
    var pos: nat

    constructor (b: string, numbers: Numbers)
      ensures this.b == b && this.numbers == numbers && pos == 0
    {
      this.b := b;
      this.numbers := numbers;
      pos := 0;
    }

    method SkipBlanks()
      requires pos <= |b|
      modifies this`pos
      ensures pos == SkipSpace(b, old(pos)) && pos <= |b|
    {
      while pos < |b|
        invariant pos <= |b| && SkipSpace(b, pos) == SkipSpace(b, old(pos))
        decreases |b| - pos
      {
        if IsSpace(b[pos]) {
          pos := pos + 1;
        } else if b[pos] == '/' && pos + 1 < |b| && b[pos + 1] == '/' {
          SkipLineComment();
        } else if b[pos] == '/' && pos + 1 < |b| && b[pos + 1] == '*' {
          SkipBlockComment();
        } else {
          break;
        }
      }
    }

    method SkipLineComment()
      requires pos + 2 <= |b|
      modifies this`pos
      ensures pos == LineCommentEnd(b, old(pos) + 2)
    {
      pos := pos + 2;
      while pos < |b| && b[pos] != '\n' && b[pos] != '\r'
        invariant pos <= |b| && LineCommentEnd(b, pos) == LineCommentEnd(b, old(pos) + 2)
      {
        pos := pos + 1;
      }
    }

    method SkipBlockComment()
      requires pos + 2 <= |b|
      modifies this`pos
      ensures pos == BlockCommentEnd(b, old(pos) + 2)
    {
      pos := pos + 2;
      while pos + 1 < |b| && !(b[pos] == '*' && b[pos + 1] == '/')
        invariant pos <= |b| && BlockCommentEnd(b, pos) == BlockCommentEnd(b, old(pos) + 2)
      {
        pos := pos + 1;
      }
      if pos + 1 < |b| {
        pos := pos + 2;
      }
    }

    /** A string, from its opening quote to behind its closing one. */
    method ReadChars() returns (r: Option<string>)
      requires pos < |b|
      modifies this`pos
      ensures match ParseChars(b, old(pos) + 1, "")
              case None => r == None && pos <= |b|
              case Some(p) => r == Some(p.value) && pos == p.end
    {
      hide CodePoint, Unescape;
      pos := pos + 1;
      var text := "";
      while pos < |b|
        invariant pos <= |b| && ParseChars(b, pos, text) == ParseChars(b, old(pos) + 1, "")
        decreases |b| - pos
      {
        var c := b[pos];
        if c == '"' {
          pos := pos + 1;
          return Some(text);
        }
        if c < ' ' {
          return None;
        }
        if c == '\\' {
          if pos + 1 >= |b| {
            return None;
          }
          var unicode := b[pos + 1] == 'u';
          var decoded := if unicode then CodePoint(b, pos + 2) else Unescape(b[pos + 1]);
          if decoded.None? {
            return None;
          }
          CodePointFits(b, pos + 2);
          text := text + [decoded.value];
          pos := pos + if unicode then 6 else 2;
        } else {
          text := text + [c];
          pos := pos + 1;
        }
      }
      return None;
    }

    method ScanDigits(start: nat) returns (end: nat)
      requires start <= |b|
      ensures end == SkipDigits(b, start)
    {
      end := start;
      while end < |b| && IsDigit(b[end])
        invariant start <= end <= |b| && SkipDigits(b, end) == SkipDigits(b, start)
      {
        end := end + 1;
      }
    }

    /** The end of a number: sign, whole part, fraction, exponent. */
    method ScanNumber() returns (end: Option<nat>)
      requires pos <= |b|
      ensures end == NumberEnd(b, pos)
    {
      hide SkipDigits;
      var p := if CharAt(b, pos, '-') then pos + 1 else pos;
      if !DigitAt(b, p) {
        return None;
      }
      if b[p] == '0' {
        p := p + 1;
      } else {
        p := ScanDigits(p + 1);
      }
      if CharAt(b, p, '.') {
        if !DigitAt(b, p + 1) {
          return None;
        }
        p := ScanDigits(p + 1);
      }
      if CharAt(b, p, 'e') || CharAt(b, p, 'E') {
        p := p + 1;
        if CharAt(b, p, '+') || CharAt(b, p, '-') {
          p := p + 1;
        }
        if !DigitAt(b, p) {
          return None;
        }
        p := ScanDigits(p);
      }
      return Some(p);
    }

    method ReadScalar() returns (r: Option<Value>)
      requires pos < |b|
      modifies this`pos
      ensures match ParseScalar(b, old(pos), numbers)
              case None => r == None && pos <= |b|
              case Some(p) => r == Some(p.value) && pos == p.end
    {
      hide ParseChars, NumberEnd, ReadString;
      if b[pos] == '"' {
        var s := ReadChars();
        return if s.None? then None else ReadString(s.value);
      }
      if b[pos] == '-' || IsDigit(b[pos]) {
        var end := ScanNumber();
        if end.None? || end.value - pos >= 64 {
          return None;
        }
        r := Some(Number(numbers.read(b[pos..end.value])));
        pos := end.value;
        return;
      }
      if HasAt(b, pos, "true") {
        pos := pos + 4;
        return Some(Bool(true));
      }
      if HasAt(b, pos, "false") {
        pos := pos + 5;
        return Some(Bool(false));
      }
      if HasAt(b, pos, "null") {
        pos := pos + 4;
        return Some(Null);
      }
      return None;
    }

    method ReadValue() returns (r: Option<Value>)
      requires pos <= |b|
      modifies this`pos
      ensures match ParseValue(b, old(pos), numbers)
              case None => r == None && pos <= |b|
              case Some(p) => r == Some(p.value) && pos == p.end
      decreases |b| - pos, 1
    {
      hide ParseScalar, ParseBracketed, SkipSpace;
      SkipBlanks();
      if pos >= |b| {
        return None;
      }
      if b[pos] == '{' || b[pos] == '[' {
        var isArray := b[pos] == '[';
        var items := ReadBracketed(isArray);
        return if items.None? then None else Some(if isArray then Array(items.value) else Object(items.value));
      }
      r := ReadScalar();
    }

    /** An array or an object, from its opening bracket. */
    method ReadBracketed(isArray: bool) returns (r: Option<Items>)
      requires pos < |b|
      modifies this`pos
      ensures match ParseBracketed(b, old(pos) + 1, isArray, numbers)
              case None => r == None && pos <= |b|
              case Some(p) => r == Some(p.value) && pos == p.end
      decreases |b| - pos, 0
    {
      hide ParseItems, ParseEntry, SkipSpace;
      ghost var from := pos;
      pos := pos + 1;
      SkipBlanks();
      if CharAt(b, pos, if isArray then ']' else '}') {
        pos := pos + 1;
        return Some(Nothing);
      }
      var items := Nothing;
      ghost var start := pos;
      while true
        invariant from < pos <= |b|
        invariant ParseItems(b, pos, items, isArray, numbers) == ParseItems(b, start, Nothing, isArray, numbers)
        decreases |b| - pos
      {
        OneRound(b, pos, items, isArray, numbers);
        var more := ReadEntry(items, isArray);
        if more.None? {
          return None;
        }
        items := more.value;
        SkipBlanks();
        if CharAt(b, pos, ',') {
          pos := pos + 1;
        } else if CharAt(b, pos, if isArray then ']' else '}') {
          pos := pos + 1;
          return Some(items);
        } else {
          return None;
        }
      }
    }

    method ReadEntry(items: Items, isArray: bool) returns (r: Option<Items>)
      requires pos <= |b|
      modifies this`pos
      ensures match ParseEntry(b, old(pos), items, isArray, numbers)
              case None => r == None && pos <= |b|
              case Some(p) => r == Some(p.value) && pos == p.end
      decreases |b| - pos, 2
    {
      hide ParseValue, ParseChars, SkipSpace, SetField, UpToZero;
      SkipBlanks();
      if isArray {
        var v := ReadValue();
        return if v.None? then None else Some(More(items, "", v.value));
      }
      if !CharAt(b, pos, '"') {
        return None;
      }
      var key := ReadChars();
      if key.None? {
        return None;
      }
      SkipBlanks();
      if !CharAt(b, pos, ':') {
        return None;
      }
      pos := pos + 1;
      SkipBlanks();
      var v := ReadValue();
      return if v.None? then None else SetField(items, UpToZero(key.value), v.value);
    }
  }

  lemma CodePointFits(b: string, pos: nat)
    ensures CodePoint(b, pos).Some? ==> pos + 4 <= |b|
  {
  }

  lemma OneRound(b: string, pos: nat, items: Items, isArray: bool, numbers: Numbers)
    requires pos <= |b|
    ensures ParseItems(b, pos, items, isArray, numbers) ==
            match ParseEntry(b, pos, items, isArray, numbers)
            case None => None
            case Some(e) =>
              var next := SkipSpace(b, e.end);
              if CharAt(b, next, ',') then ParseItems(b, next + 1, e.value, isArray, numbers)
              else if CharAt(b, next, if isArray then ']' else '}') then Some(Parsed(e.value, next + 1))
              else None
  {
    hide ParseEntry, SkipSpace;
  }

  /** The public operation. */
  method DeserializeJson(b: string, numbers: Numbers) returns (r: Option<Value>)
    ensures r == Parse(b, numbers)
    ensures forall v :: r == Some(v) <==> SpacedValueAt(b, 0, |b|, v, numbers)
  {
    hide ParseValue, SkipSpace, SpacedValueAt;
    forall v
      ensures Parse(b, numbers) == Some(v) <==> SpacedValueAt(b, 0, |b|, v, numbers)
    {
      ParseIff(b, v, numbers);
    }
    if |b| == 0 {
      return None;
    }
    var reader := new JsonReader(b, numbers);
    reader.SkipBlanks();
    r := reader.ReadValue();
    if r.Some? {
      reader.SkipBlanks();
      if reader.pos != |b| {
        r := None;
      }
    }
  }

  /** A tree that fits in the buffer survives printing and parsing, indented or not, up to its numbers. */
  method StoreAndLoad(v: Value, buf: array<char>, pretty: bool, numbers: Numbers) returns (ok: bool, r: Option<Value>)
    requires Storable(v) && Numeric(v, numbers)
    modifies buf
    ensures ok <==> |Print(v, 0, pretty, numbers)| < buf.Length
    ensures ok ==> r == Some(Reread(v, numbers)) && (r == Some(v) <==> Exact(v, numbers))
  {
    hide Print, Parse, Storable, Numeric, Reread, Exact;
    var size;
    ok, size := SerializeJson(v, buf, buf.Length, pretty, numbers);
    r := None;
    if ok {
      TextReread(v, pretty, numbers);
      RereadIff(v, numbers);
      r := DeserializeJson(buf[..size], numbers);
    }
  }
}
