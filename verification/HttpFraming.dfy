/** Whole requests from their first byte: how the fields announce the body, and which body is read.

    Everything is said in literals and by the bytes sent; none of it names the functions that the
    parser is made of. */
module HttpFraming {
  import opened Text
  import opened Numerals
  import opened HttpSpec
  import opened HttpFields
  import opened HttpChunked

  // ---------------------------------------------------------------------
  // Blanks

  ghost predicate OnlySpace(s: string) { forall i :: 0 <= i < |s| ==> SpaceByte(s[i]) }

  ghost predicate NoSpaceAround(s: string) { s != "" ==> !SpaceByte(s[0]) && !SpaceByte(s[|s| - 1]) }

  /** `inner` is s without the blanks around it. */
  ghost predicate Surrounds(s: string, before: string, inner: string, after: string) {
    s == before + inner + after && OnlySpace(before) && OnlySpace(after) && NoSpaceAround(inner)
  }

  lemma OnlySpaceIs(s: string)
    ensures OnlySpace(s) <==> AllSpace(s)
    ensures NoSpaceAround(s) <==> (s != "" ==> !IsSpace(s[0]) && !IsSpace(s[|s| - 1]))
  {
    hide IsSpace, SpaceByte;
    forall i | 0 <= i < |s|
      ensures IsSpace(s[i]) <==> SpaceByte(s[i])
    {
      SpaceTable(s[i]);
    }
  }

  lemma {:induction false} TrimLeftParts(s: string) returns (before: string)
    ensures s == before + TrimLeft(s) && AllSpace(before) && (TrimLeft(s) != "" ==> !IsSpace(TrimLeft(s)[0]))
  {
    hide IsSpace;
    if s != "" && IsSpace(s[0]) {
      before := TrimLeftParts(s[1..]);
      before := [s[0]] + before;
    } else {
      before := "";
    }
  }

  lemma {:induction false} TrimRightParts(s: string) returns (after: string)
    ensures s == TrimRight(s) + after && AllSpace(after) && (TrimRight(s) != "" ==> !IsSpace(TrimRight(s)[|TrimRight(s)| - 1]))
  {
    hide IsSpace;
    if s != "" && IsSpace(s[|s| - 1]) {
      after := TrimRightParts(s[..|s| - 1]);
      after := after + [s[|s| - 1]];
    } else {
      after := "";
    }
  }

  lemma TrimParts(s: string) returns (before: string, after: string)
    ensures Surrounds(s, before, Trim(s), after)
  {
    hide IsSpace, SpaceByte, TrimLeft, TrimRight;
    before := TrimLeftParts(s);
    after := TrimRightParts(TrimLeft(s));
    var inner := Trim(s);
    assert TrimLeft(s) == inner + after;
    assert inner != "" ==> inner[0] == TrimLeft(s)[0];
    OnlySpaceIs(before);
    OnlySpaceIs(after);
    OnlySpaceIs(inner);
    assert s == before + (inner + after);
  }

  /** Trimming takes off exactly the blanks around. */
  lemma TrimIff(s: string, inner: string)
    ensures Trim(s) == inner <==> exists before, after :: Surrounds(s, before, inner, after)
  {
    hide Trim, AllSpace, OnlySpace, NoSpaceAround, IsSpace;
    var b, a := TrimParts(s);
    forall before, after | Surrounds(s, before, inner, after)
      ensures Trim(s) == inner
    {
      OnlySpaceIs(before);
      OnlySpaceIs(after);
      OnlySpaceIs(inner);
      TrimValue(before, inner, after);
    }
  }

  // ---------------------------------------------------------------------
  // Lines

  /** A request line: method, target and version with one blank between them. */
  ghost predicate RequestLineOf(line: string, verb: string, uri: string, version: string) {
    && line == verb + " " + uri + " " + version
    && 1 <= |verb| <= 16 && ' ' !in verb
    && 1 <= |uri| <= 4096 && ' ' !in uri
    && 1 <= |version| <= 8
  }

  lemma SplitAtBlank(line: string, left: string, right: string)
    ensures line == left + " " + right && ' ' !in left <==>
            IndexOf(line, ' ') == |left| && line[..|left|] == left && line[|left| + 1..] == right
  {
    if line == left + " " + right && ' ' !in left {
      assert line[..|left|] == left;
      IndexOfIs(line, ' ', |left|);
    }
    if IndexOf(line, ' ') == |left| && line[..|left|] == left && line[|left| + 1..] == right {
      assert line == line[..|left|] + [line[|left|]] + line[|left| + 1..];
    }
  }

  /** Exactly these request lines are accepted, with these parts. */
  lemma RequestLineIff(line: string, verb: string, uri: string, version: string)
    ensures ParseRequestLine(line) == Some((verb, uri, version)) <==> RequestLineOf(line, verb, uri, version)
  {
    hide IndexOf;
    var tail := uri + " " + version;
    assert verb + " " + uri + " " + version == verb + " " + tail;
    SplitAtBlank(line, verb, tail);
    SplitAtBlank(tail, uri, version);
    if ParseRequestLine(line) == Some((verb, uri, version)) {
      SplitAtBlank(line[|verb| + 1..], uri, version);
    }
  }

  /** A header line with this name, as written, and this value, each with blanks around it. */
  ghost predicate HeaderLineOf(line: string, name: string, value: string) {
    exists left, right, b1, a1, b2, a2 ::
      line == left + ":" + right && ':' !in left && Surrounds(left, b1, name, a1) && Surrounds(right, b2, value, a2)
  }

  /** The text in small letters. */
  ghost predicate SmallLetters(s: string, small: string) { AnyCase(s, small) && NoCapitals(small) }

  lemma LowerHasNoCapitals(s: string)
    ensures NoCapitals(Lower(s))
  {
    forall i, k | 0 <= i < |s| && 0 <= k < 26
      ensures Lower(s)[i] != UPPER_LETTERS[k]
    {
      LetterTables(k);
    }
  }

  lemma LowerIsSmall(s: string, small: string)
    ensures Lower(s) == small <==> SmallLetters(s, small)
  {
    hide AnyCase, NoCapitals, Lower;
    if NoCapitals(small) {
      LowerIsAnyCase(s, small);
    }
    LowerHasNoCapitals(s);
  }

  lemma SplitAtColon(line: string, left: string, right: string)
    requires line == left + ":" + right && ':' !in left
    ensures IndexOf(line, ':') == |left| && line[..|left|] == left && line[|left| + 1..] == right
  {
    assert line[..|left|] == left;
    IndexOfIs(line, ':', |left|);
  }

  lemma HeaderLineParts(line: string, name: string, value: string)
    ensures HeaderLineOf(line, name, value) <==>
            var c := IndexOf(line, ':'); c >= 0 && name == Trim(line[..c]) && value == Trim(line[c + 1..])
  {
    hide Trim, Surrounds, IndexOf;
    forall left, right, b1, a1, b2, a2 |
      line == left + ":" + right && ':' !in left && Surrounds(left, b1, name, a1) && Surrounds(right, b2, value, a2)
      ensures var c := IndexOf(line, ':'); c >= 0 && name == Trim(line[..c]) && value == Trim(line[c + 1..])
    {
      SplitAtColon(line, left, right);
      TrimIff(left, name);
      TrimIff(right, value);
    }
    var c := IndexOf(line, ':');
    if c >= 0 && name == Trim(line[..c]) && value == Trim(line[c + 1..]) {
      assert line == line[..c] + ":" + line[c + 1..];
      TrimIff(line[..c], name);
      TrimIff(line[c + 1..], value);
    }
  }

  /** A header line within the limits; the name is given in small letters. */
  ghost predicate GoodHeader(line: string, small: string, value: string) {
    exists name :: HeaderLineOf(line, name, value) && 1 <= |name| <= 256 && |value| <= 4096 && SmallLetters(name, small)
  }

  /** Exactly these header lines are accepted. */
  lemma HeaderLineIff(line: string, small: string, value: string)
    ensures ParseHeaderLine(line) == Some((small, value)) <==> GoodHeader(line, small, value)
  {
    hide Trim, HeaderLineOf, IndexOf, Lower, SmallLetters;
    forall name
      ensures HeaderLineOf(line, name, value) <==>
              var c := IndexOf(line, ':'); c >= 0 && name == Trim(line[..c]) && value == Trim(line[c + 1..])
      ensures Lower(name) == small <==> SmallLetters(name, small)
    {
      HeaderLineParts(line, name, value);
      LowerIsSmall(name, small);
    }
  }

  // ---------------------------------------------------------------------
  // Lengths

  /** The number that a Content-Length value announces: optional blanks and a sign, then decimal digits;
      nothing at all is 0, and a negative number counts from 2^64 down. */
  ghost predicate Announces(value: string, n: nat) {
    || (value == "" && n == 0)
    || exists blanks, sign, digits, v :: WrittenLength(value, n, blanks, sign, digits, v)
  }

  ghost predicate WrittenLength(value: string, n: nat, blanks: string, sign: string, digits: string, v: nat) {
    && value == blanks + sign + digits && OnlySpace(blanks) && sign in {"", "+", "-"}
    && digits != "" && Numeral(digits, 10, v) && v < 18446744073709551616
    && n == if sign == "-" && v > 0 then 18446744073709551616 - v else v
  }

  lemma DecimalStart(digits: string, v: nat)
    requires digits != "" && Numeral(digits, 10, v)
    ensures (forall c :: c in digits ==> IsDigit(c)) && Digits(digits, 10) == v
    ensures digits[0] != '+' && digits[0] != '-' && !IsSpace(digits[0])
  {
    hide Numeral, Digits;
    NumeralIff(digits, 10, v);
    assert IsDigit(digits[0]);
  }

  lemma WrittenLengthParses(value: string, n: nat, blanks: string, sign: string, digits: string, v: nat)
    requires WrittenLength(value, n, blanks, sign, digits, v)
    ensures ParseUnsigned(value) == Some(n)
  {
    hide Digits, OnlySpace, IsDigit, Numeral, AllSpace, IsSpace;
    DecimalStart(digits, v);
    OnlySpaceIs(blanks);
    var t := sign + digits;
    assert value == blanks + t;
    TrimLeftBlanks(blanks, t);
    assert !IsSpace('+') && !IsSpace('-') by { SpaceTable('+'); SpaceTable('-'); }
    assert t[0] == if sign == "" then digits[0] else sign[0];
    assert TrimLeft(t) == t;
    assert sign != "" ==> t[1..] == digits;
    assert sign == "" ==> t == digits;
  }

  lemma NothingWritten(n: nat, blanks: string, sign: string, digits: string, v: nat)
    ensures !WrittenLength("", n, blanks, sign, digits, v)
  {
    assert |blanks + sign + digits| == |blanks| + |sign| + |digits|;
  }

  lemma ParsedLengthIsWritten(value: string)
    requires value != "" && ParseUnsigned(value).Some?
    ensures Announces(value, ParseUnsigned(value).value)
  {
    hide Digits, OnlySpace, IsDigit, Numeral, AllSpace, IsSpace, TrimLeft;
    var t := TrimLeft(value);
    var blanks := TrimLeftParts(value);
    OnlySpaceIs(blanks);
    var sign, digits := if t[0] == '+' || t[0] == '-' then [t[0]] else "", if t[0] == '+' || t[0] == '-' then t[1..] else t;
    var v := Digits(digits, 10);
    NumeralIff(digits, 10, v);
    assert t == sign + digits;
    assert value == blanks + sign + digits;
    assert WrittenLength(value, ParseUnsigned(value).value, blanks, sign, digits, v);
  }

  /** A length is read as exactly the number it announces. */
  lemma LengthIff(value: string, n: nat)
    ensures ParseUnsigned(value) == Some(n) <==> Announces(value, n)
  {
    hide Digits, WrittenLength;
    if value != "" {
      forall blanks, sign, digits, v | WrittenLength(value, n, blanks, sign, digits, v)
        ensures ParseUnsigned(value) == Some(n)
      {
        WrittenLengthParses(value, n, blanks, sign, digits, v);
      }
      if ParseUnsigned(value) == Some(n) {
        ParsedLengthIsWritten(value);
      }
    } else {
      forall blanks, sign, digits, v
        ensures !WrittenLength("", n, blanks, sign, digits, v)
      {
        NothingWritten(n, blanks, sign, digits, v);
      }
    }
  }

  /** A chunk-size line: a hexadecimal number, then nothing or an extension. */
  ghost predicate SizeLineOf(line: string, hex: string, ext: string, size: nat) {
    && line == hex + ext && 1 <= |line| < 32
    && Numeral(hex, 16, size) && (ext == "" || ext[0] == ';')
  }

  lemma HexHasNoSemicolon(hex: string, size: nat)
    requires Numeral(hex, 16, size)
    ensures (forall c :: c in hex ==> IsHexDigit(c)) && Digits(hex, 16) == size && ';' !in hex
  {
    hide Numeral, Digits;
    NumeralIff(hex, 16, size);
  }

  lemma SizeLineIs(line: string, hex: string, ext: string, size: nat, read: nat)
    requires SizeLineOf(line, hex, ext, size)
    ensures ParseChunkSize(line, read) == if size <= 1048576 && read + size <= 67108864 then Some(size) else None
  {
    hide Numeral, Digits, IsHexDigit;
    HexHasNoSemicolon(hex, size);
    assert line[..|hex|] == hex;
    if ext == "" {
      assert line == hex;
    } else {
      IndexOfIs(line, ';', |hex|);
    }
  }

  /** A chunk of this size begins exactly behind such a line, within the two limits. */
  lemma SizeLineIff(line: string, read: nat, size: nat)
    ensures ParseChunkSize(line, read) == Some(size) <==>
            && size <= 1048576 && read + size <= 67108864
            && exists hex, ext :: SizeLineOf(line, hex, ext, size)
  {
    hide Numeral, Digits, IsHexDigit, IndexOf;
    forall hex, ext | SizeLineOf(line, hex, ext, size)
      ensures ParseChunkSize(line, read) == if size <= 1048576 && read + size <= 67108864 then Some(size) else None
    {
      SizeLineIs(line, hex, ext, size, read);
    }
    if ParseChunkSize(line, read) == Some(size) {
      var semi := IndexOf(line, ';');
      var hex, ext := if semi < 0 then line else line[..semi], if semi < 0 then "" else line[semi..];
      NumeralIff(hex, 16, size);
      assert line == hex + ext;
      assert SizeLineOf(line, hex, ext, size);
    }
  }

  // ---------------------------------------------------------------------
  // Fields

  /** The last field with this name, in any mixture of capitals and small letters, has this value. */
  ghost predicate LastValue(fields: seq<Field>, name: string, value: string) {
    exists i :: LastAt(fields, i, name) && fields[i].value == value
  }

  ghost predicate LastAt(fields: seq<Field>, i: int, name: string) {
    0 <= i < |fields| && AnyCase(fields[i].name, name) && forall j :: i < j < |fields| ==> !AnyCase(fields[j].name, name)
  }

  ghost predicate NoField(fields: seq<Field>, name: string) {
    forall i :: 0 <= i < |fields| ==> !AnyCase(fields[i].name, name)
  }

  /** The map has each name that occurs, in small letters, with the value of its last field. */
  ghost predicate HeadersAre(headers: map<string, string>, fields: seq<Field>) {
    && (forall name :: name in headers ==> NoCapitals(name) && LastValue(fields, name, headers[name]))
    && (forall name :: NoCapitals(name) && name !in headers ==> NoField(fields, name))
  }

  lemma {:induction false} HeadersKnown(headers: map<string, string>, fields: seq<Field>, name: string)
    requires NoCapitals(name)
    ensures var h := HeadersInto(headers, fields);
            || (name in h && LastValue(fields, name, h[name]))
            || (NoField(fields, name) && (name in h <==> name in headers) && (name in h ==> h[name] == headers[name]))
    decreases |fields|
  {
    hide AnyCase, NoCapitals, Lower;
    if fields != [] {
      var f, tail := fields[0], fields[1..];
      var next, h := headers[Lower(f.name) := f.value], HeadersInto(headers, fields);
      HeadersKnown(next, tail, name);
      LowerIsAnyCase(f.name, name);
      if name in h && LastValue(tail, name, h[name]) {
        var i :| LastAt(tail, i, name) && tail[i].value == h[name];
        assert forall j :: i + 1 < j < |fields| ==> fields[j] == tail[j - 1];
        assert LastAt(fields, i + 1, name);
      } else {
        assert forall j :: 0 < j < |fields| ==> fields[j] == tail[j - 1];
        if AnyCase(f.name, name) {
          assert LastAt(fields, 0, name);
        }
      }
    }
  }

  lemma {:induction false} HeaderNamesSmall(headers: map<string, string>, fields: seq<Field>)
    requires forall name :: name in headers ==> NoCapitals(name)
    ensures forall name :: name in HeadersInto(headers, fields) ==> NoCapitals(name)
    decreases |fields|
  {
    hide NoCapitals, Lower;
    if fields != [] {
      LowerHasNoCapitals(fields[0].name);
      HeaderNamesSmall(headers[Lower(fields[0].name) := fields[0].value], fields[1..]);
    }
  }

  lemma HeadersRead(fields: seq<Field>)
    ensures HeadersAre(HeadersInto(map[], fields), fields)
  {
    hide NoCapitals, LastValue, NoField, HeadersInto;
    HeaderNamesSmall(map[], fields);
    forall name | NoCapitals(name)
      ensures name in HeadersInto(map[], fields) ==> LastValue(fields, name, HeadersInto(map[], fields)[name])
      ensures name !in HeadersInto(map[], fields) ==> NoField(fields, name)
    {
      HeadersKnown(map[], fields, name);
      NotBoth(fields, name, name);
    }
  }

  lemma NotBoth(fields: seq<Field>, name: string, value: string)
    ensures !(LastValue(fields, name, value) && NoField(fields, name))
  {
  }

  lemma OneLast(fields: seq<Field>, name: string, a: string, b: string)
    requires LastValue(fields, name, a) && LastValue(fields, name, b)
    ensures a == b
  {
    hide AnyCase;
    var i :| LastAt(fields, i, name) && fields[i].value == a;
    var j :| LastAt(fields, j, name) && fields[j].value == b;
  }

  /** What the header map says about one name. */
  lemma HeaderIs(fields: seq<Field>, name: string)
    requires NoCapitals(name)
    ensures var h := HeadersInto(map[], fields);
            && (forall value :: LastValue(fields, name, value) ==> name in h && h[name] == value)
            && (NoField(fields, name) ==> name !in h)
            && (name in h ==> LastValue(fields, name, h[name]))
  {
    hide NoCapitals, LastValue, NoField, HeadersInto;
    HeadersRead(fields);
    var h := HeadersInto(map[], fields);
    forall value | LastValue(fields, name, value)
      ensures name in h && h[name] == value
    {
      NotBoth(fields, name, value);
      OneLast(fields, name, h[name], value);
    }
    if name in h {
      NotBoth(fields, name, h[name]);
    }
  }

  // ---------------------------------------------------------------------
  // Requests

  /** A well-formed head within the limits. */
  ghost predicate ValidHead(verb: string, uri: string, version: string, fields: seq<Field>) {
    && RequestLineOf(verb + " " + uri + " " + version, verb, uri, version)
    && '\n' !in verb && '\n' !in uri && '\n' !in version
    && (forall i :: 0 <= i < |fields| ==> WellFormed(fields[i]))
    && |HeadersInto(map[], fields)| <= 128
  }

  /** Blanks and tabs around the value; no blank in the name. */
  ghost predicate WellFormed(f: Field) {
    && 1 <= |f.name| <= 256 && (forall i :: 0 <= i < |f.name| ==> !SpaceByte(f.name[i]) && f.name[i] != ':')
    && |f.value| <= 4096 && '\n' !in f.value && NoSpaceAround(f.value)
    && (forall i :: 0 <= i < |f.before| ==> f.before[i] in {' ', '\t'})
    && (forall i :: 0 <= i < |f.after| ==> f.after[i] in {' ', '\t'})
    && |f.name| + 1 + |f.before| + |f.value| + |f.after| < 8192
  }

  lemma WellFormedValid(f: Field)
    requires WellFormed(f)
    ensures ValidField(f)
  {
    hide IsSpace, SpaceByte;
    OnlySpaceIs(f.value);
    forall i | 0 <= i < |f.name|
      ensures !IsSpace(f.name[i])
    {
      SpaceTable(f.name[i]);
    }
  }

  /** The request has been read up to its end, which the return code says. */
  ghost predicate Complete(p: Progress, verb: string, uri: string, version: string, fields: seq<Field>, body: string, suffix: string) {
    && ReturnCode(p) == 1 && p.Active? && p.phase == Done && p.rest == suffix
    && p.req.verb == verb && p.req.uri == uri && p.req.version == version
    && HeadersAre(p.req.headers, fields)
    && p.req.body == body
  }

  function AfterHead(verb: string, uri: string, version: string, fields: seq<Field>): Progress {
    START.(phase := Headers, req := Request(verb, uri, version, HeadersInto(map[], fields), ""))
  }

  lemma HeadRead(verb: string, uri: string, version: string, fields: seq<Field>, tail: string)
    requires ValidHead(verb, uri, version, fields)
    ensures Feed(START, Head(verb, uri, version, fields) + tail) == Run(EndOfHeaders(AfterHead(verb, uri, version, fields), tail))
    ensures HeadersAre(HeadersInto(map[], fields), fields)
  {
    hide ValidField, WellFormed, HeadersAre, EndOfHeaders, Head, Run;
    forall i | 0 <= i < |fields|
      ensures ValidField(fields[i])
    {
      WellFormedValid(fields[i]);
    }
    HeadersRead(fields);
    HeadParses(verb, uri, version, fields, tail);
  }

  lemma SmallNames()
    ensures NoCapitals("content-length") && NoCapitals("transfer-encoding") && NoCapitals("chunked")
  {
    LowerFixed("content-length");
    LowerFixed("transfer-encoding");
    LowerFixed("chunked");
  }

  lemma LowerFixed(s: string)
    requires forall i :: 0 <= i < |s| ==> !('A' <= s[i] <= 'Z')
    ensures NoCapitals(s)
  {
    forall i, k | 0 <= i < |s| && 0 <= k < 26
      ensures s[i] != UPPER_LETTERS[k]
    {
      LetterTables(k);
    }
  }

  lemma BodyTaken(p: Progress, body: string, suffix: string)
    requires p.Active? && p.phase == Body && !p.chunked && p.req.body == "" && p.contentLength == |body| > 0
    requires p.rest == body + suffix
    ensures Run(p) == p.(phase := Done, rest := suffix, req := p.req.(body := body))
  {
    assert p.rest[..|body|] == body && p.rest[|body|..] == suffix && "" + body == body;
    DoneHalts(p.(phase := Done, rest := suffix, req := p.req.(body := body)));
  }

  /** A body of announced length: exactly so many bytes are the body, the rest is unread. */
  lemma KnownLength(verb: string, uri: string, version: string, fields: seq<Field>, value: string, body: string, suffix: string)
    requires ValidHead(verb, uri, version, fields)
    requires LastValue(fields, "content-length", value) && Announces(value, |body|) && |body| <= 67108864
    ensures Complete(Feed(START, Head(verb, uri, version, fields) + (body + suffix)), verb, uri, version, fields, body, suffix)
  {
    hide ValidHead, Announces, LastValue, HeadersAre, HeadersInto, Head, Feed, Step, NoCapitals, ParseUnsigned;
    var p := AfterHead(verb, uri, version, fields);
    HeadRead(verb, uri, version, fields, body + suffix);
    SmallNames();
    HeaderIs(fields, "content-length");
    LengthIff(value, |body|);
    var q := EndOfHeaders(p, body + suffix);
    if |body| > 0 {
      BodyTaken(q, body, suffix);
    } else {
      assert body + suffix == suffix;
      DoneHalts(q);
    }
  }

  /** Before all of it has arrived the parser waits with what there is. */
  lemma LengthNotReached(verb: string, uri: string, version: string, fields: seq<Field>, value: string, n: nat, part: string)
    requires ValidHead(verb, uri, version, fields)
    requires LastValue(fields, "content-length", value) && Announces(value, n) && |part| < n <= 67108864
    ensures var p := Feed(START, Head(verb, uri, version, fields) + part);
            ReturnCode(p) == 0 && p.Active? && p.phase == Body && p.req.body == part && p.rest == ""
  {
    hide ValidHead, Announces, LastValue, HeadersAre, HeadersInto, Head, Feed, NoCapitals, ParseUnsigned;
    HeadRead(verb, uri, version, fields, part);
    SmallNames();
    HeaderIs(fields, "content-length");
    LengthIff(value, n);
    PartTaken(EndOfHeaders(AfterHead(verb, uri, version, fields), part), part);
  }

  lemma PartTaken(p: Progress, part: string)
    requires p.Active? && p.phase == Body && !p.chunked && p.req.body == "" && p.contentLength > |part| && p.rest == part
    ensures Run(p) == p.(rest := "", req := p.req.(body := part))
  {
    assert part[..|part|] == part && part[|part|..] == "" && "" + part == part;
    var q := p.(rest := "", req := p.req.(body := part));
    assert Step(q) == Halt;
    assert Run(q) == q;
    if part == "" {
      assert q == p;
    }
  }

  /** A length is refused exactly when it announces no number of at most 64 megabytes. */
  lemma BadLength(verb: string, uri: string, version: string, fields: seq<Field>, value: string, tail: string)
    requires ValidHead(verb, uri, version, fields) && LastValue(fields, "content-length", value)
    ensures ReturnCode(Feed(START, Head(verb, uri, version, fields) + tail)) == -1 <==> !exists n: nat :: Announces(value, n) && n <= 67108864
  {
    hide ValidHead, Announces, LastValue, HeadersAre, HeadersInto, Head, Feed, Step, NoCapitals, ParseUnsigned, Run;
    HeadRead(verb, uri, version, fields, tail);
    SmallNames();
    HeaderIs(fields, "content-length");
    forall n: nat
      ensures ParseUnsigned(value) == Some(n) <==> Announces(value, n)
    {
      LengthIff(value, n);
    }
    var q := EndOfHeaders(AfterHead(verb, uri, version, fields), tail);
    if q.Active? {
      PlainNeverFails(q);
    } else {
      FailedStays();
    }
  }

  lemma FailedStays()
    ensures Run(Failed) == Failed
  {
  }

  lemma PlainNeverFails(p: Progress)
    requires p.Active? && p.phase in {Body, Done} && !p.chunked && p.req.body == ""
    requires p.phase == Body ==> p.contentLength > 0
    ensures Run(p).Active?
  {
    if p.phase == Done {
      DoneHalts(p);
    } else if p.contentLength <= |p.rest| {
      assert p.rest == p.rest[..p.contentLength] + p.rest[p.contentLength..];
      BodyTaken(p, p.rest[..p.contentLength], p.rest[p.contentLength..]);
    } else {
      PartTaken(p, p.rest);
    }
  }

  /** Chunks as sent, with sizes in hexadecimal digits. */
  ghost predicate ChunksOf(chunks: seq<Chunk>) {
    forall c :: c in chunks ==> 1 <= |c.data| <= 1048576 && SizeLineOf(c.hex + c.ext, c.hex, c.ext, |c.data|) && '\n' !in c.ext
  }

  lemma SizeLineValid(hex: string, ext: string, size: nat)
    requires SizeLineOf(hex + ext, hex, ext, size) && '\n' !in ext
    ensures ValidSizeLine(hex, ext, size)
  {
    hide Numeral, Digits;
  }

  /** A chunked body: the chunks in order up to the line of the last one. */
  lemma ChunkedBody(verb: string, uri: string, version: string, fields: seq<Field>, coding: string,
                    chunks: seq<Chunk>, lastHex: string, lastExt: string, suffix: string)
    requires ValidHead(verb, uri, version, fields)
    requires NoField(fields, "content-length") && LastValue(fields, "transfer-encoding", coding) && AnyCase(coding, "chunked")
    requires ChunksOf(chunks) && SizeLineOf(lastHex + lastExt, lastHex, lastExt, 0) && '\n' !in lastExt
    requires |Payload(chunks)| <= 67108864
    ensures var body := Encode(chunks) + (lastHex + lastExt + "\r\n") + suffix;
            Complete(Feed(START, Head(verb, uri, version, fields) + body), verb, uri, version, fields, Payload(chunks), suffix)
  {
    hide ValidHead, LastValue, NoField, HeadersAre, HeadersInto, Head, Feed, Step, NoCapitals, Encode, Payload, AnyCase,
      SizeLineOf, ValidSizeLine, Lower;
    var body := Encode(chunks) + (lastHex + lastExt + "\r\n") + suffix;
    HeadRead(verb, uri, version, fields, body);
    SmallNames();
    HeaderIs(fields, "content-length");
    HeaderIs(fields, "transfer-encoding");
    LowerIsAnyCase(coding, "chunked");
    forall c | c in chunks
      ensures ValidChunk(c)
    {
      SizeLineValid(c.hex, c.ext, |c.data|);
    }
    SizeLineValid(lastHex, lastExt, 0);
    var q := EndOfHeaders(AfterHead(verb, uri, version, fields), body);
    DecodesChunks(q, chunks, lastHex, lastExt, suffix);
    assert "" + Payload(chunks) == Payload(chunks);
  }

  /** With neither field there is no body. */
  lemma NoBody(verb: string, uri: string, version: string, fields: seq<Field>, suffix: string)
    requires ValidHead(verb, uri, version, fields) && NoField(fields, "content-length")
    requires forall coding :: LastValue(fields, "transfer-encoding", coding) ==> !AnyCase(coding, "chunked")
    ensures Complete(Feed(START, Head(verb, uri, version, fields) + suffix), verb, uri, version, fields, "", suffix)
  {
    hide ValidHead, LastValue, NoField, HeadersAre, HeadersInto, Head, Feed, Step, NoCapitals, AnyCase, Lower;
    HeadRead(verb, uri, version, fields, suffix);
    SmallNames();
    HeaderIs(fields, "content-length");
    HeaderIs(fields, "transfer-encoding");
    var h := HeadersInto(map[], fields);
    if "transfer-encoding" in h {
      LowerIsAnyCase(h["transfer-encoding"], "chunked");
    }
    DoneHalts(EndOfHeaders(AfterHead(verb, uri, version, fields), suffix));
  }

  // ---------------------------------------------------------------------
  // Refused lines

  /** A line without its carriage return. */
  ghost predicate CoreOf(line: string, core: string) {
    line == core + "\r" || (line == core && (core != "" ==> core[|core| - 1] != '\r'))
  }

  lemma CoreIs(line: string, core: string)
    requires CoreOf(line, core)
    ensures StripCR(line) == core
  {
    if line == core + "\r" {
      assert line[..|line| - 1] == core;
    }
  }

  lemma LineEnds(line: string, rest: string)
    requires '\n' !in line
    ensures var input := line + "\n" + rest; IndexOf(input, '\n') == |line| && input[..|line|] == line
  {
    var input := line + "\n" + rest;
    assert input[..|line|] == line;
    IndexOfIs(input, '\n', |line|);
  }

  /** A request line that is too long or lacks a part is refused. */
  lemma RefusedRequestLine(line: string, core: string, rest: string)
    requires '\n' !in line && CoreOf(line, core)
    requires |line| > 8192 || !exists verb, uri, version :: RequestLineOf(core, verb, uri, version)
    ensures Feed(START, line + "\n" + rest) == Failed
  {
    hide ParseRequestLine, RequestLineOf, IndexOf, StripCR, CoreOf;
    LineEnds(line, rest);
    CoreIs(line, core);
    forall verb, uri, version
      ensures ParseRequestLine(core) == Some((verb, uri, version)) <==> RequestLineOf(core, verb, uri, version)
    {
      RequestLineIff(core, verb, uri, version);
    }
    assert "" + (line + "\n" + rest) == line + "\n" + rest;
    var p := Arrive(START, line + "\n" + rest);
    if ParseRequestLine(core).Some? {
      var (verb, uri, version) := ParseRequestLine(core).value;
      assert ParseRequestLine(core) == Some((verb, uri, version));
    }
    assert Step(p) == Next(Failed);
    FailedStays();
  }

  /** A header line, not the blank one, that is too long, lacks a part or is one name too many is refused. */
  lemma RefusedHeaderLine(p: Progress, line: string, core: string, rest: string)
    requires p.Active? && p.phase == Headers && p.rest == line + "\n" + rest && '\n' !in line && CoreOf(line, core) && core != ""
    requires |line| > 8192
          || forall small, value :: GoodHeader(line, small, value) ==> |p.req.headers.Keys + {small}| > 128
    ensures Run(p) == Failed
  {
    hide ParseHeaderLine, GoodHeader, IndexOf, StripCR, CoreOf;
    LineEnds(line, rest);
    CoreIs(line, core);
    if ParseHeaderLine(line).Some? {
      var (small, value) := ParseHeaderLine(line).value;
      HeaderLineIff(line, small, value);
      var headers := p.req.headers[small := value];
      assert headers.Keys == p.req.headers.Keys + {small};
      assert |headers.Keys| == |headers|;
    }
    assert Step(p) == Next(Failed);
    FailedStays();
  }
}
