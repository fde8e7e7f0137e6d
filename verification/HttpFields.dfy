/** Well-formed heads of requests: the parser takes every request line and every header
    field (section 3.2 of RFC 7230) within the limits apart into its parts. */
module HttpFields {
  import opened Text
  import opened HttpSpec

  /** A field as sent; `before` and `after` are the optional blanks around the value. */
  datatype Field = Field(name: string, before: string, value: string, after: string)

  predicate Blanks(s: string) { forall i :: 0 <= i < |s| ==> s[i] == ' ' || s[i] == '\t' }

  predicate AllSpace(s: string) { forall i :: 0 <= i < |s| ==> IsSpace(s[i]) }

  predicate FieldName(name: string) {
    0 < |name| <= MAX_HEADER_NAME_SIZE && forall i :: 0 <= i < |name| ==> !IsSpace(name[i]) && name[i] != ':'
  }

  predicate FieldValue(value: string) {
    && |value| <= MAX_HEADER_VALUE_SIZE && '\n' !in value
    && (value != "" ==> !IsSpace(value[0]) && !IsSpace(value[|value| - 1]))
  }

  function FieldLine(f: Field): string { f.name + ":" + f.before + f.value + f.after }

  predicate ValidField(f: Field) {
    FieldName(f.name) && Blanks(f.before) && FieldValue(f.value) && Blanks(f.after) && |FieldLine(f)| < MAX_HEADER_LINE_SIZE
  }

  function EncodeFields(fields: seq<Field>): string {
    if fields == [] then "" else FieldLine(fields[0]) + "\r\n" + EncodeFields(fields[1..])
  }

  /** Names in lower case; of several fields with one name the last counts. */
  function HeadersInto(headers: map<string, string>, fields: seq<Field>): map<string, string>
    decreases |fields|
  {
    if fields == [] then headers else HeadersInto(headers[Lower(fields[0].name) := fields[0].value], fields[1..])
  }

  // ---------------------------------------------------------------------
  // Trimming

  lemma {:induction false} TrimLeftBlanks(b: string, x: string)
    requires AllSpace(b)
    ensures TrimLeft(b + x) == TrimLeft(x)
  {
    if b == "" {
      assert b + x == x;
    } else {
      assert (b + x)[0] == b[0] && (b + x)[1..] == b[1..] + x;
      TrimLeftBlanks(b[1..], x);
    }
  }

  lemma {:induction false} TrimRightBlanks(x: string, b: string)
    requires AllSpace(b)
    ensures TrimRight(x + b) == TrimRight(x)
  {
    if b == "" {
      assert x + b == x;
    } else {
      var last := |b| - 1;
      assert (x + b)[..|x + b| - 1] == x + b[..last];
      TrimRightBlanks(x, b[..last]);
    }
  }

  lemma TrimValue(before: string, value: string, after: string)
    requires AllSpace(before) && AllSpace(after)
    requires value != "" ==> !IsSpace(value[0]) && !IsSpace(value[|value| - 1])
    ensures Trim(before + value + after) == value
  {
    assert before + value + after == before + (value + after);
    TrimLeftBlanks(before, value + after);
    if value == "" {
      assert value + after == after + "";
      TrimLeftBlanks(after, "");
    } else {
      TrimRightBlanks(value, after);
    }
  }

  // ---------------------------------------------------------------------
  // Lines

  /** The first line of some input. */
  lemma FirstLine(line: string, rest: string)
    requires '\n' !in line
    ensures var input, e := line + "\r\n" + rest, |line| + 1;
            IndexOf(input, '\n') == e && input[..e] == line + "\r" && StripCR(input[..e]) == line && input[e + 1..] == rest
  {
    var input, e := line + "\r\n" + rest, |line| + 1;
    assert input[..e] == line + "\r";
    IndexOfIs(input, '\n', e);
    assert (line + "\r")[..|line|] == line;
  }

  lemma BlanksAreSpace(s: string)
    requires Blanks(s)
    ensures AllSpace(s) && AllSpace(s + "\r") && '\n' !in s
  {
  }

  lemma NameTrims(name: string)
    requires FieldName(name)
    ensures Trim(name) == name && '\n' !in name && ':' !in name
  {
    assert "" + name + "" == name;
    TrimValue("", name, "");
  }

  lemma FieldParses(f: Field)
    requires ValidField(f)
    ensures ParseHeaderLine(FieldLine(f) + "\r") == Some((Lower(f.name), f.value)) && '\n' !in FieldLine(f)
  {
    hide Lower, Trim, IsSpace;
    var line := FieldLine(f) + "\r";
    NameTrims(f.name);
    BlanksAreSpace(f.before);
    BlanksAreSpace(f.after);
    assert line[..|f.name|] == f.name;
    IndexOfIs(line, ':', |f.name|);
    assert line[|f.name| + 1..] == f.before + f.value + (f.after + "\r");
    TrimValue(f.before, f.value, f.after + "\r");
  }

  lemma FieldStep(p: Progress, f: Field, rest: string)
    requires p.Active? && p.phase == Headers && ValidField(f) && p.rest == FieldLine(f) + "\r\n" + rest
    requires |p.req.headers[Lower(f.name) := f.value]| <= MAX_HEADERS
    ensures Step(p) == Next(p.(rest := rest, req := p.req.(headers := p.req.headers[Lower(f.name) := f.value])))
  {
    hide ParseHeaderLine, Lower, StripCR, IndexOf;
    FieldParses(f);
    FirstLine(FieldLine(f), rest);
    assert |FieldLine(f)| > 0;
  }

  lemma EmptyLineStep(p: Progress, rest: string)
    requires p.Active? && p.phase == Headers && p.rest == "\r\n" + rest
    ensures Step(p) == Next(EndOfHeaders(p, rest))
  {
    hide ParseFraming, StripCR, IndexOf;
    assert p.rest == "" + "\r\n" + rest;
    FirstLine("", rest);
  }

  lemma {:induction false} HeadersGrow(headers: map<string, string>, fields: seq<Field>)
    ensures |headers| <= |HeadersInto(headers, fields)|
    decreases |fields|
  {
    if fields != [] {
      var next := headers[Lower(fields[0].name) := fields[0].value];
      assert headers.Keys <= next.Keys;
      KeysCount(headers.Keys, next.Keys);
      HeadersGrow(next, fields[1..]);
    }
  }

  lemma {:induction false} KeysCount(a: set<string>, b: set<string>)
    requires a <= b
    ensures |a| <= |b|
  {
    if a != {} {
      var x :| x in a;
      KeysCount(a - {x}, b - {x});
    }
  }

  /** Every list of valid fields is read into the header map. */
  lemma {:induction false} FieldsParse(p: Progress, fields: seq<Field>, rest: string)
    requires p.Active? && p.phase == Headers && forall i :: 0 <= i < |fields| ==> ValidField(fields[i])
    requires |HeadersInto(p.req.headers, fields)| <= MAX_HEADERS
    requires p.rest == EncodeFields(fields) + "\r\n" + rest
    ensures Run(p) == Run(EndOfHeaders(p.(req := p.req.(headers := HeadersInto(p.req.headers, fields))), rest))
    decreases |fields|
  {
    hide Step, ValidField, FieldLine, EndOfHeaders, Lower;
    if fields == [] {
      EmptyLineStep(p, rest);
      assert p.(req := p.req.(headers := p.req.headers)) == p;
    } else {
      var f, tail := fields[0], EncodeFields(fields[1..]) + "\r\n" + rest;
      var next := p.req.headers[Lower(f.name) := f.value];
      assert p.rest == FieldLine(f) + "\r\n" + tail;
      HeadersGrow(next, fields[1..]);
      FieldStep(p, f, tail);
      EndIgnoresRest(p.(req := p.req.(headers := HeadersInto(next, fields[1..]))), tail, rest);
      FieldsParse(p.(rest := tail, req := p.req.(headers := next)), fields[1..], rest);
    }
  }

  lemma EndIgnoresRest(p: Progress, other: string, rest: string)
    requires p.Active?
    ensures EndOfHeaders(p.(rest := other), rest) == EndOfHeaders(p, rest)
  {
  }

  // ---------------------------------------------------------------------
  // Requests

  predicate ValidParts(verb: string, uri: string, version: string) {
    && 0 < |verb| <= MAX_METHOD_SIZE && ' ' !in verb && '\n' !in verb
    && 0 < |uri| <= MAX_URL_SIZE && ' ' !in uri && '\n' !in uri
    && 0 < |version| <= MAX_HTTP_VERSION_SIZE && '\n' !in version
  }

  lemma RequestLineParses(verb: string, uri: string, version: string)
    requires ValidParts(verb, uri, version)
    ensures ParseRequestLine(verb + " " + uri + " " + version) == Some((verb, uri, version))
  {
    var line, tail := verb + " " + uri + " " + version, uri + " " + version;
    assert line[..|verb|] == verb;
    IndexOfIs(line, ' ', |verb|);
    assert line[|verb| + 1..] == tail;
    assert tail[..|uri|] == uri;
    IndexOfIs(tail, ' ', |uri|);
    assert tail[|uri| + 1..] == version;
  }

  lemma RequestLineStep(p: Progress, verb: string, uri: string, version: string, rest: string)
    requires p.Active? && p.phase == RequestLine && ValidParts(verb, uri, version)
    requires p.rest == verb + " " + uri + " " + version + "\r\n" + rest
    ensures Step(p) == Next(p.(phase := Headers, rest := rest, req := p.req.(verb := verb, uri := uri, version := version)))
  {
    hide ParseRequestLine, StripCR, IndexOf;
    var line := verb + " " + uri + " " + version;
    assert '\n' !in line;
    RequestLineParses(verb, uri, version);
    FirstLine(line, rest);
  }

  function Head(verb: string, uri: string, version: string, fields: seq<Field>): string {
    verb + " " + uri + " " + version + "\r\n" + (EncodeFields(fields) + "\r\n")
  }

  /** The head of every well-formed request within the limits is taken apart: method, target, version
      and fields are the ones sent, and the body begins right behind the empty line. */
  lemma HeadParses(verb: string, uri: string, version: string, fields: seq<Field>, body: string)
    requires ValidParts(verb, uri, version) && forall i :: 0 <= i < |fields| ==> ValidField(fields[i])
    requires |HeadersInto(map[], fields)| <= MAX_HEADERS
    ensures var req := Request(verb, uri, version, HeadersInto(map[], fields), "");
            Feed(START, Head(verb, uri, version, fields) + body) == Run(EndOfHeaders(START.(phase := Headers, req := req), body))
  {
    hide Step, ValidField, EndOfHeaders, ValidParts;
    var tail := EncodeFields(fields) + "\r\n" + body;
    var p := Arrive(START, Head(verb, uri, version, fields) + body);
    assert p.rest == verb + " " + uri + " " + version + "\r\n" + tail;
    RequestLineStep(p, verb, uri, version, tail);
    var q := p.(phase := Headers, rest := tail, req := Request(verb, uri, version, map[], ""));
    FieldsParse(q, fields, body);
    var r := START.(phase := Headers, req := Request(verb, uri, version, HeadersInto(map[], fields), ""));
    EndIgnoresRest(r, tail, body);
  }
}
