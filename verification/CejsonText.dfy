/** Printing a value and parsing it again.

    `Print` is the compact text of a value; `Nodes` is the array that the parser makes
    of that text; `Built` is the array that the builder makes of the value.  The main
    result is `RoundTrip`: the first two agree with the third node by node. */
module CejsonText {
  import opened Text
  import opened CejsonSpec

  datatype Value = VNull | VBool(b: bool) | VInt(n: int) | VString(s: string) | VArray(items: Values) | VObject(fields: Values)

  /** Elements in order; `key` matters in objects only. */
  datatype Values = None_ | More(init: Values, key: string, value: Value)

  function Count(items: Values): nat {
    match items
    case None_ => 0
    case More(init, _, _) => Count(init) + 1
  }

  // ---------------------------------------------------------------------
  // Text

  function Print(v: Value): (r: string)
    ensures r != ""
  {
    match v
    case VNull => "null"
    case VBool(b) => if b then "true" else "false"
    case VInt(n) => PrintInt(n)
    case VString(s) => Quote(s)
    case VArray(items) => "[" + PrintItems(items, false) + "]"
    case VObject(fields) => "{" + PrintItems(fields, true) + "}"
  }

  function Separator(init: Values): string { if init.None_? then "" else "," }

  function KeyText(key: string, keyed: bool): string { if keyed then Quote(key) + ":" else "" }

  function PrintItems(items: Values, keyed: bool): string {
    match items
    case None_ => ""
    case More(init, key, value) => PrintItems(init, keyed) + Separator(init) + KeyText(key, keyed) + Print(value)
  }

  // ---------------------------------------------------------------------
  // The parsed array

  /** Hash of a key: bytes that are printed as they are take part. */
  function KeyHash(cfg: Config, key: string): nat {
    if key == "" then 0
    else
      var h := KeyHash(cfg, key[..|key| - 1]);
      var c := key[|key| - 1];
      if NeedsEscape(c) then h else cfg.mix(h, c)
  }

  function KeyNode(cfg: Config, key: string, offset: nat): JsonNode {
    JsonNode(JSON_STRING, U28(KeyHash(cfg, key)), U32(offset + 1), U32(|Escape(key)|), 0, None)
  }

  /** Nodes of a value whose text starts at `offset`; a scalar takes the hash of the key before it. */
  function Nodes(cfg: Config, v: Value, offset: nat, hash: nat): (r: seq<JsonNode>)
    ensures r != []
    decreases v, 0
  {
    match v
    case VNull => [JsonNode(JSON_NULL, hash, U32(offset), 4, 0, None)]
    case VBool(b) => [JsonNode(if b then JSON_TRUE else JSON_FALSE, hash, U32(offset), if b then 4 else 5, 0, None)]
    case VInt(n) => [JsonNode(JSON_NUMBER_INT, hash, U32(offset), U32(|PrintInt(n)|), 0, None)]
    case VString(s) => [JsonNode(JSON_STRING, 0, U32(offset + 1), U32(|Escape(s)|), 0, None)]
    case VArray(items) => ContainerNodes(JSON_ARRAY, offset, |Print(v)|, Count(items), ItemNodes(cfg, items, false, offset + 1))
    case VObject(fields) => ContainerNodes(JSON_OBJECT, offset, |Print(v)|, Count(fields), ItemNodes(cfg, fields, true, offset + 1))
  }

  function ContainerNodes(kind: JsonType, offset: nat, len: nat, children: nat, below: seq<JsonNode>): seq<JsonNode> {
    [JsonNode(kind, U28(|below|), U32(offset), (offset + len - U32(offset)) % 0x1_0000_0000, children, None)] + below
  }

  /** Where the text of the last item begins. */
  function ItemStart(init: Values, keyed: bool, offset: nat): nat {
    offset + |PrintItems(init, keyed)| + |Separator(init)|
  }

  function ItemNodes(cfg: Config, items: Values, keyed: bool, offset: nat): seq<JsonNode>
    decreases items, 0
  {
    match items
    case None_ => []
    case More(init, key, value) =>
      var at := ItemStart(init, keyed, offset);
      ItemNodes(cfg, init, keyed, offset) + EntryNodes(cfg, key, value, keyed, at)
  }

  function EntryNodes(cfg: Config, key: string, value: Value, keyed: bool, at: nat): seq<JsonNode>
    decreases value, 1
  {
    if keyed then [KeyNode(cfg, key, at)] + Nodes(cfg, value, at + |Quote(key)| + 1, U28(KeyHash(cfg, key)))
    else Nodes(cfg, value, at, 0)
  }

  // ---------------------------------------------------------------------
  // Strings

  /** Inside a string, not inside an escape sequence. */
  ghost predicate Plain(s: State) {
    s.Parsing? && Sound(s) && s.mode == InString && !s.inEscape && !s.inUniEscape
  }

  /** The string state after `len` more bytes of text, with the given hash of a key. */
  ghost predicate Read(s: State, t: State, len: nat, hash: nat)
    requires s.Parsing?
  {
    && Plain(t)
    && t == s.(consumed := s.consumed + len, pendingLen := s.pendingLen + len, pendingHash := hash, uniDigits := t.uniDigits)
  }

  lemma ReadShortEscape(cfg: Config, s: State, c: char)
    requires Plain(s) && c in "\"\\/bfnrt"
    ensures Read(s, Feed(cfg, s, ['\\', c]), 2, s.pendingHash)
  {
    FeedCons(cfg, s, '\\', [c]);
    FeedOne(cfg, Step(cfg, s, '\\'), c);
    assert ['\\'] + [c] == ['\\', c];
  }

  lemma ReadHex(cfg: Config, s: State, c: char)
    requires s.Parsing? && Sound(s) && s.mode == InString && !s.inEscape && s.inUniEscape && IsHexDigit(c)
    ensures Step(cfg, s, c) ==
            s.(consumed := s.consumed + 1, pendingLen := s.pendingLen + 1,
               uniDigits := s.uniDigits + 1, inUniEscape := s.uniDigits + 1 != 4)
  {
  }

  lemma ReadFourHex(cfg: Config, s: State, text: string)
    requires s.Parsing? && Sound(s) && s.mode == InString && !s.inEscape && s.inUniEscape && s.uniDigits == 0
    requires |text| == 4 && forall c :: c in text ==> IsHexDigit(c)
    ensures Feed(cfg, s, text) ==
            s.(consumed := s.consumed + 4, pendingLen := s.pendingLen + 4, uniDigits := 4, inUniEscape := false)
  {
    hide Sound, StepString, Step;
    ReadHex(cfg, s, text[0]);
    var s1 := Step(cfg, s, text[0]);
    ReadHex(cfg, s1, text[1]);
    var s2 := Step(cfg, s1, text[1]);
    ReadHex(cfg, s2, text[2]);
    var s3 := Step(cfg, s2, text[2]);
    ReadHex(cfg, s3, text[3]);
    FeedCons(cfg, s, text[0], text[1..]);
    FeedCons(cfg, s1, text[1], text[2..]);
    FeedCons(cfg, s2, text[2], text[3..]);
    FeedOne(cfg, s3, text[3]);
    assert text == [text[0]] + text[1..] && text[1..] == [text[1]] + text[2..] && text[2..] == [text[2]] + text[3..];
    assert text[3..] == [text[3]];
  }

  lemma ReadUniEscape(cfg: Config, s: State, d: char, e: char)
    requires Plain(s) && IsHexDigit(d) && IsHexDigit(e)
    ensures Read(s, Feed(cfg, s, "\\u00" + [d, e]), 6, s.pendingHash)
  {
    var s2 := s.(consumed := s.consumed + 2, pendingLen := s.pendingLen + 2, inUniEscape := true, uniDigits := 0);
    BeginUni(cfg, s);
    hide Step, StepString;
    var hex := ['0', '0', d, e];
    FeedCons(cfg, s, '\\', ['u'] + hex);
    FeedCons(cfg, Step(cfg, s, '\\'), 'u', hex);
    assert ['\\'] + (['u'] + hex) == "\\u00" + [d, e];
    ReadFourHex(cfg, s2, hex);
  }

  lemma BeginUni(cfg: Config, s: State)
    requires Plain(s)
    ensures Step(cfg, Step(cfg, s, '\\'), 'u') ==
            s.(consumed := s.consumed + 2, pendingLen := s.pendingLen + 2, inUniEscape := true, uniDigits := 0)
  {
  }

  /** A printed byte is read back as part of the string. */
  lemma ReadChar(cfg: Config, s: State, c: char)
    requires Plain(s)
    ensures Read(s, Feed(cfg, s, EscapeChar(c)), |EscapeChar(c)|,
                 if s.isKey && !NeedsEscape(c) then cfg.mix(s.pendingHash, c) else s.pendingHash)
  {
    if !NeedsEscape(c) {
      FeedOne(cfg, s, c);
    } else if c == '"' || c == '\\' || c == 8 as char || c == 12 as char || c == '\n' || c == '\r' || c == '\t' {
      hide Step, Feed, Read, Plain;
      ReadShortEscape(cfg, s, EscapeChar(c)[1]);
      assert EscapeChar(c) == ['\\', EscapeChar(c)[1]];
    } else {
      hide Step, Feed, Read, Plain;
      ReadUniEscape(cfg, s, HexChar(c as nat / 16), HexChar(c as nat % 16));
    }
  }

  lemma {:induction false} ReadEscaped(cfg: Config, s: State, text: string)
    requires Plain(s) && (s.isKey ==> s.pendingHash == 0)
    ensures Read(s, Feed(cfg, s, Escape(text)), |Escape(text)|, if s.isKey then KeyHash(cfg, text) else s.pendingHash)
  {
    hide Step, EscapeChar, Sound;
    if text == "" {
      FeedNothing(cfg, s);
    } else {
      var init, c := text[..|text| - 1], text[|text| - 1];
      ReadEscaped(cfg, s, init);
      var t := Feed(cfg, s, Escape(init));
      ReadChar(cfg, t, c);
      FeedSplit(cfg, s, Escape(init), EscapeChar(c));
    }
  }

  // ---------------------------------------------------------------------
  // Values

  ghost predicate Quiet(f: NumberFlags) { !f.endsWithDot && !f.endsWithE && !f.endsWithSign }

  /** Between tokens. */
  ghost predicate Ready(s: State) {
    s.Parsing? && Sound(s) && !s.inEscape && !s.inUniEscape && Quiet(s.num)
  }

  /** A value may begin here. */
  ghost predicate AcceptsValue(s: State) {
    Ready(s) && s.mode == Normal && (s.stack != [] ==> !s.expecting[|s.stack| - 1])
  }

  /** A state after a value that began in s. */
  ghost predicate After(s: State, t: State, nodes: seq<JsonNode>, len: nat)
    requires s.Parsing?
  {
    && Ready(t) && t.mode == AfterValue && !t.pendingValue
    && t.nodes == nodes && t.stack == s.stack && t.expecting == s.expecting
    && t.consumed == s.consumed + len
  }

  /** A number still being read ends here. */
  ghost function Settle(cfg: Config, s: State): (r: State)
    requires Sound(s)
    ensures Sound(r)
  {
    if s.Parsing? && s.mode == InNumber then EndNumber(cfg, s) else s
  }

  /** The hash that a scalar at this place takes over from its key. */
  ghost function Inherited(s: State): nat
    requires s.Parsing? && Sound(s)
  {
    if s.stack != [] && s.nodes[Top(s)].kind == JSON_OBJECT && |s.nodes| > 0 && s.nodes[|s.nodes| - 1].kind == JSON_STRING
    then s.nodes[|s.nodes| - 1].hash
    else 0
  }

  predicate BeginsValueChar(c: char) { c in "\"{[-tfn" || IsDigit(c) }

  lemma BeginsValue(cfg: Config, s: State, c: char)
    requires AcceptsValue(s) && BeginsValueChar(c)
    ensures Step(cfg, s, c) == StepValue(cfg, s, c)
    ensures Sound(s.(pendingValue := false))
  {
    hide StepValue;
  }

  lemma {:induction false} ReadLiteral(cfg: Config, u: State)
    requires u.Parsing? && Sound(u) && u.mode == InLiteral
    requires |u.nodes| < cfg.nodesCap
    ensures var text := LiteralText(u.literal);
            u.matched < |text| && Feed(cfg, u, text[u.matched..]) == LiteralRead(cfg, u, |text| - u.matched)
    decreases |LiteralText(u.literal)| - u.matched
  {
    hide Step, Feed, InheritHash, CountChild;
    var text := LiteralText(u.literal);
    var k := u.matched;
    LiteralStep(cfg, u);
    if k + 1 == |text| {
      FeedOne(cfg, u, text[k]);
      assert text[k..] == [text[k]];
    } else {
      var u' := u.(matched := k + 1, consumed := u.consumed + 1);
      FeedCons(cfg, u, text[k], text[k + 1..]);
      assert text[k..] == [text[k]] + text[k + 1..];
      ReadLiteral(cfg, u');
      assert u'.(literal := JSON_NULL, matched := 0, consumed := u'.consumed + (|text| - (k + 1))) ==
             u.(literal := JSON_NULL, matched := 0, consumed := u.consumed + (|text| - k));
    }
  }

  /** The state after the remaining n bytes of a literal. */
  ghost function LiteralRead(cfg: Config, u: State, n: nat): State
    requires u.Parsing? && Sound(u) && u.mode == InLiteral
  {
    AddScalar(cfg, u.(literal := JSON_NULL, matched := 0, consumed := u.consumed + n),
              JsonNode(u.literal, 0, U32(u.pendingOffset), |LiteralText(u.literal)|, 0, None))
  }

  lemma LiteralStep(cfg: Config, u: State)
    requires u.Parsing? && Sound(u) && u.mode == InLiteral && |u.nodes| < cfg.nodesCap
    ensures u.matched < |LiteralText(u.literal)|
    ensures Step(cfg, u, LiteralText(u.literal)[u.matched]) ==
            if u.matched + 1 == |LiteralText(u.literal)| then LiteralRead(cfg, u, 1)
            else u.(matched := u.matched + 1, consumed := u.consumed + 1)
    ensures u.matched + 1 < |LiteralText(u.literal)| ==> Sound(u.(matched := u.matched + 1, consumed := u.consumed + 1))
  {
    hide CountChild;
  }

  /** Adding a scalar completes the value that began in s. */
  lemma ScalarAfter(cfg: Config, s: State, w: State, node: JsonNode)
    requires Ready(s) && w.Parsing? && Sound(w) && |s.nodes| < cfg.nodesCap
    requires w.nodes == s.nodes && w.stack == s.stack && w.expecting == s.expecting && w.consumed >= s.consumed
    requires !w.inEscape && !w.inUniEscape && Quiet(w.num) && !w.pendingValue && node.hash == 0
    ensures After(s, AddScalar(cfg, w, node),
                  CountChild(s.nodes + [node.(hash := Inherited(s))], s.stack), w.consumed - s.consumed)
  {
    hide CountChild, Sound;
  }

  lemma ParseLiteral(cfg: Config, s: State, t: JsonType)
    requires AcceptsValue(s) && |s.nodes| < cfg.nodesCap && t in {JSON_TRUE, JSON_FALSE, JSON_NULL}
    ensures var text := LiteralText(t);
            After(s, Feed(cfg, s, text),
                  CountChild(s.nodes + [JsonNode(t, Inherited(s), U32(s.consumed), |text|, 0, None)], s.stack), |text|)
  {
    hide CountChild, Feed, Step, Sound, AddScalar, After, Inherited;
    var text := LiteralText(t);
    BeginsValue(cfg, s, text[0]);
    var u := Next(BeginLiteral(s.(pendingValue := false), t));
    assert StepValue(cfg, s, text[0]) == u;
    FeedCons(cfg, s, text[0], text[1..]);
    assert text == [text[0]] + text[1..];
    ReadLiteral(cfg, u);
    var w := u.(literal := JSON_NULL, matched := 0, consumed := s.consumed + |text|);
    SoundControl(u, w);
    ScalarAfter(cfg, s, w, JsonNode(t, 0, U32(s.consumed), |text|, 0, None));
  }

  /** Control fields do not matter for soundness in these modes. */
  lemma SoundControl(u: State, w: State)
    requires u.Parsing? && w.Parsing? && Sound(u)
    requires w.nodes == u.nodes && w.stack == u.stack && w.expecting == u.expecting
    requires w.mode in {Normal, AfterValue, InNumber} || (w.mode == InString && !w.isKey)
             || (w.mode == InLiteral && w.literal == JSON_NULL && w.matched == 0)
    ensures Sound(w)
  {
  }

  lemma ParseString(cfg: Config, s: State, text: string)
    requires AcceptsValue(s) && |s.nodes| < cfg.nodesCap
    ensures After(s, Feed(cfg, s, Quote(text)),
                  CountChild(s.nodes + [JsonNode(JSON_STRING, 0, U32(s.consumed + 1), U32(|Escape(text)|), 0, None)], s.stack),
                  |Quote(text)|)
  {
    hide CountChild, Escape, Feed, Step, Sound, AddString;
    BeginsValue(cfg, s, '"');
    var u := Next(BeginString(s.(pendingValue := false), false));
    SoundControl(s, u);
    assert StepValue(cfg, s, '"') == u;
    FeedCons(cfg, s, '"', Escape(text) + ['"']);
    var w := Feed(cfg, u, Escape(text));
    ReadEscaped(cfg, u, text);
    FeedSnoc(cfg, u, Escape(text), '"');
    assert Quote(text) == ['"'] + (Escape(text) + ['"']);
    EndString(cfg, w);
    StringAfter(cfg, s, w);
    assert |Quote(text)| == |Escape(text)| + 2;
  }

  lemma StringAfter(cfg: Config, s: State, w: State)
    requires Ready(s) && Plain(w) && !w.isKey && |s.nodes| < cfg.nodesCap
    requires w.nodes == s.nodes && w.stack == s.stack && w.expecting == s.expecting && w.consumed >= s.consumed
    requires Quiet(w.num) && !w.pendingValue
    ensures After(s, Next(AddString(cfg, w)),
                  CountChild(s.nodes + [JsonNode(JSON_STRING, 0, U32(w.pendingOffset), U32(w.pendingLen), 0, None)], s.stack),
                  w.consumed + 1 - s.consumed)
  {
    hide CountChild, Sound;
  }

  lemma EndString(cfg: Config, s: State)
    requires Plain(s)
    ensures Step(cfg, s, '"') == Next(AddString(cfg, s))
  {
  }

  /** A key and its colon. */
  lemma ParseKey(cfg: Config, s: State, key: string)
    requires Ready(s) && s.mode == Normal && s.stack != [] && s.expecting[|s.stack| - 1]
    requires |s.nodes| < cfg.nodesCap
    ensures var t := Feed(cfg, s, KeyText(key, true)); var last := |s.stack| - 1;
            && AcceptsValue(t) && t.nodes == s.nodes + [KeyNode(cfg, key, s.consumed)]
            && t.stack == s.stack && t.expecting == s.expecting[last := false]
            && t.consumed == s.consumed + |Quote(key)| + 1
  {
    hide Escape, CountChild, Step, Feed, Sound, AddString;
    var u := Next(BeginString(s, true));
    SoundBegin(s);
    BeginsKey(cfg, s);
    var w := Feed(cfg, u, Escape(key));
    ReadEscaped(cfg, u, key);
    EndString(cfg, w);
    var x := Next(AddString(cfg, w));
    FeedCons(cfg, s, '"', Escape(key) + ['"', ':']);
    FeedSplit(cfg, u, Escape(key), ['"', ':']);
    FeedCons(cfg, w, '"', [':']);
    assert ['"'] + [':'] == ['"', ':'];
    assert KeyText(key, true) == ['"'] + (Escape(key) + ['"', ':']);
    KeyAdded(cfg, s, w);
    FeedOne(cfg, x, ':');
    ReadColon(cfg, x);
    assert |Quote(key)| == |Escape(key)| + 2;
  }

  lemma SoundBegin(s: State)
    requires Ready(s) && s.stack != []
    ensures Sound(Next(BeginString(s, true)))
  {
  }

  lemma KeyAdded(cfg: Config, s: State, w: State)
    requires Ready(s) && Plain(w) && w.isKey && |s.nodes| < cfg.nodesCap && s.stack != []
    requires w.nodes == s.nodes && w.stack == s.stack && w.expecting == s.expecting
    requires Quiet(w.num)
    ensures var x := Next(AddString(cfg, w));
            && Ready(x) && x.mode == ExpectColon && x.stack == s.stack && x.expecting == s.expecting
            && x.nodes == s.nodes + [JsonNode(JSON_STRING, U28(w.pendingHash), U32(w.pendingOffset), U32(w.pendingLen), 0, None)]
            && x.consumed == w.consumed + 1
  {
    hide CountChild, Sound;
  }

  lemma BeginsKey(cfg: Config, s: State)
    requires Ready(s) && s.mode == Normal && s.stack != [] && s.expecting[|s.stack| - 1]
    ensures Step(cfg, s, '"') == Next(BeginString(s, true))
  {
    hide Sound;
  }

  lemma ReadColon(cfg: Config, x: State)
    requires x.Parsing? && Sound(x) && x.mode == ExpectColon
    ensures x.stack != [] && |x.expecting| == |x.stack|
    ensures Step(cfg, x, ':') == Next(x.(mode := Normal, expecting := x.expecting[|x.stack| - 1 := false]))
    ensures Sound(Step(cfg, x, ':'))
  {
  }

  // ---------------------------------------------------------------------
  // Numbers

  /** Inside a number made of an optional minus and digits. */
  ghost predicate InInteger(s: State) {
    s.Parsing? && Sound(s) && s.mode == InNumber && !s.num.hasDot && !s.num.hasExp && Quiet(s.num)
    && !s.inEscape && !s.inUniEscape && !s.pendingValue
  }

  lemma {:induction false} ReadDigits(cfg: Config, s: State, digits: string)
    requires InInteger(s) && forall c :: c in digits ==> IsDigit(c)
    ensures var t := Feed(cfg, s, digits);
            && InInteger(t)
            && t == s.(consumed := s.consumed + |digits|, pendingLen := s.pendingLen + |digits|, num := t.num)
            && t.num.negative == s.num.negative
            && t.num.hasDigit == (s.num.hasDigit || digits != "")
  {
    hide Sound, Step;
    if digits == "" {
      FeedNothing(cfg, s);
    } else {
      var init, c := digits[..|digits| - 1], digits[|digits| - 1];
      ReadDigits(cfg, s, init);
      DigitStep(cfg, Feed(cfg, s, init), c);
    }
  }

  lemma DigitStep(cfg: Config, s: State, c: char)
    requires InInteger(s) && IsDigit(c)
    ensures var t := Step(cfg, s, c);
            && InInteger(t)
            && t == s.(consumed := s.consumed + 1, pendingLen := s.pendingLen + 1, num := t.num)
            && t.num.negative == s.num.negative && t.num.hasDigit
  {
  }

  lemma ParseInt(cfg: Config, s: State, n: int)
    requires AcceptsValue(s) && |s.nodes| < cfg.nodesCap
    ensures var text := PrintInt(n);
            After(s, Settle(cfg, Feed(cfg, s, text)),
                  CountChild(s.nodes + [JsonNode(JSON_NUMBER_INT, Inherited(s), U32(s.consumed), U32(|text|), 0, None)], s.stack),
                  |text|)
  {
    hide CountChild, Decimal, Step, Feed, Sound, After, Inherited, AddScalar;
    var text := PrintInt(n);
    var c, rest := text[0], text[1..];
    FirstOfInt(n);
    BeginsValue(cfg, s, c);
    var u := Next(BeginNumber(s.(pendingValue := false), c));
    SoundControl(s, u);
    assert StepValue(cfg, s, c) == u;
    FeedCons(cfg, s, c, rest);
    assert text == [c] + rest;
    ReadDigits(cfg, u, rest);
    var w := Feed(cfg, u, rest);
    ScalarAfter(cfg, s, w, JsonNode(JSON_NUMBER_INT, 0, U32(s.consumed), U32(|text|), 0, None));
  }

  lemma FirstOfInt(n: int)
    ensures var text := PrintInt(n);
            && (text[0] == '-' || IsDigit(text[0])) && (text[0] == '-' ==> |text| > 1)
            && forall c :: c in text[1..] ==> IsDigit(c)
  {
    hide Decimal;
    if n < 0 {
      assert PrintInt(n)[1..] == Decimal(-n);
    } else {
      var t := Decimal(n);
      assert t[0] in t;
      assert forall c :: c in t[1..] ==> c in t;
    }
  }

  // ---------------------------------------------------------------------
  // Containers

  function Depth(v: Value): nat {
    match v
    case VArray(items) => 1 + DepthItems(items)
    case VObject(fields) => 1 + DepthItems(fields)
    case _ => 0
  }

  function DepthItems(items: Values): nat {
    match items
    case None_ => 0
    case More(init, _, value) => if DepthItems(init) < Depth(value) then Depth(value) else DepthItems(init)
  }

  /** A separator or bracket ends a number first. */
  lemma SettleStep(cfg: Config, r: State, c: char)
    requires Sound(r) && Settle(cfg, r).Parsing? && c in ",]}"
    ensures Step(cfg, r, c) == Step(cfg, Settle(cfg, r), c)
  {
    hide Sound, AddScalar, StepStructure;
  }

  lemma CountChildAppend(nodes: seq<JsonNode>, stack: seq<nat>, tail: seq<JsonNode>)
    requires stack != [] ==> stack[|stack| - 1] < |nodes|
    ensures CountChild(nodes + tail, stack) == CountChild(nodes, stack) + tail
  {
  }

  /** Inside the container that was opened with `base` before it: some items have been read. */
  ghost predicate Inside(cfg: Config, s: State, t: State, base: seq<JsonNode>, kind: JsonType, offset: nat, items: Values)
    requires s.Parsing? && IsContainer(kind)
  {
    var keyed := kind == JSON_OBJECT;
    && Ready(t) && !t.pendingValue
    && t.mode == (if items.None_? then Normal else AfterValue)
    && t.nodes == base + [JsonNode(kind, 0, U32(offset), 0, Count(items), None)] + ItemNodes(cfg, items, keyed, offset + 1)
    && t.stack == s.stack + [|base|]
    && t.expecting == s.expecting + [keyed && items.None_?]
    && t.consumed == offset + 1 + |PrintItems(items, keyed)|
  }

  /** The place of the next item: after the comma, if there is one. */
  ghost predicate AtItem(cfg: Config, s: State, t: State, base: seq<JsonNode>, kind: JsonType, offset: nat, init: Values)
    requires s.Parsing? && IsContainer(kind)
  {
    var keyed := kind == JSON_OBJECT;
    && Ready(t) && !t.pendingValue && t.mode == Normal
    && t.nodes == base + [JsonNode(kind, 0, U32(offset), 0, Count(init), None)] + ItemNodes(cfg, init, keyed, offset + 1)
    && t.stack == s.stack + [|base|]
    && t.expecting == s.expecting + [keyed]
    && t.consumed == ItemStart(init, keyed, offset + 1)
  }

  lemma ParseComma(cfg: Config, s: State, r: State, base: seq<JsonNode>, kind: JsonType, offset: nat, init: Values)
    requires s.Parsing? && IsContainer(kind) && Sound(r)
    requires Inside(cfg, s, Settle(cfg, r), base, kind, offset, init)
    requires init.None_? ==> r == Settle(cfg, r)
    ensures AtItem(cfg, s, Feed(cfg, r, Separator(init)), base, kind, offset, init)
  {
    hide ItemNodes, PrintItems, Settle;
    if init.None_? {
      FeedNothing(cfg, r);
    } else {
      FeedOne(cfg, r, ',');
      SettleStep(cfg, r, ',');
      var t := Settle(cfg, r);
      assert t.nodes[Top(t)].kind == kind;
      CommaStep(cfg, t);
    }
  }

  lemma CommaStep(cfg: Config, t: State)
    requires t.Parsing? && Sound(t) && t.mode == AfterValue && t.stack != []
    ensures Step(cfg, t, ',') ==
            Next(t.(mode := Normal, expecting := if t.nodes[Top(t)].kind == JSON_OBJECT then t.expecting[|t.stack| - 1 := true] else t.expecting))
  {
  }

  /** The place of the value of an item: after the key, if there is one. */
  lemma ParseEntryKey(cfg: Config, s: State, t: State, base: seq<JsonNode>, kind: JsonType, offset: nat, init: Values, key: string)
    requires s.Parsing? && IsContainer(kind) && AtItem(cfg, s, t, base, kind, offset, init)
    requires kind == JSON_OBJECT ==> |t.nodes| < cfg.nodesCap
    ensures var keyed := kind == JSON_OBJECT; var u := Feed(cfg, t, KeyText(key, keyed));
            var at := ItemStart(init, keyed, offset + 1);
            && AcceptsValue(u)
            && u.nodes == t.nodes + (if keyed then [KeyNode(cfg, key, at)] else [])
            && u.stack == t.stack && u.expecting == s.expecting + [false]
            && u.consumed == at + |KeyText(key, keyed)|
            && Inherited(u) == if keyed then U28(KeyHash(cfg, key)) else 0
  {
    hide ItemNodes, PrintItems, KeyHash, Escape, Count, ItemStart;
    assert t.nodes[|base|].kind == kind;
    if kind == JSON_OBJECT {
      ParseKey(cfg, t, key);
    } else {
      FeedNothing(cfg, t);
    }
  }

  /** The children of the innermost container are counted in its node. */
  lemma CountInside(base: seq<JsonNode>, head: JsonNode, rest: seq<JsonNode>, stack: seq<nat>)
    requires stack != [] && stack[|stack| - 1] == |base|
    ensures CountChild(base + [head] + rest, stack) == base + [head.(children := head.children + 1)] + rest
  {
    var all := base + [head] + rest;
    assert all[|base|] == head;
  }

  lemma {:induction false} ParseItems(cfg: Config, s: State, u: State, base: seq<JsonNode>, kind: JsonType, offset: nat, items: Values)
    requires s.Parsing? && IsContainer(kind) && Inside(cfg, s, u, base, kind, offset, None_)
    requires |base| + 1 + |ItemNodes(cfg, items, kind == JSON_OBJECT, offset + 1)| <= cfg.nodesCap
    requires |s.stack| + 1 + DepthItems(items) <= cfg.stackCap
    ensures Inside(cfg, s, Settle(cfg, Feed(cfg, u, PrintItems(items, kind == JSON_OBJECT))), base, kind, offset, items)
    ensures items.None_? ==> Feed(cfg, u, PrintItems(items, kind == JSON_OBJECT)) == u
    decreases items, 0
  {
    hide Feed, Step, Settle, After, Escape, Inside, AtItem, Sound, Print, Quote, KeyHash, Nodes, EntryNodes, KeyText;
    var keyed := kind == JSON_OBJECT;
    match items {
      case None_ =>
        InsideSound(cfg, s, u, base, kind, offset);
        FeedNothing(cfg, u);
        InsideSettled(cfg, s, u, base, kind, offset);
      case More(init, key, value) =>
        ParseItems(cfg, s, u, base, kind, offset, init);
        InsideSound(cfg, s, u, base, kind, offset);
        InsideSettled(cfg, s, u, base, kind, offset);
        var r := Feed(cfg, u, PrintItems(init, keyed));
        ParseComma(cfg, s, r, base, kind, offset, init);
        var t := Feed(cfg, r, Separator(init));
        FeedSplit(cfg, u, PrintItems(init, keyed), Separator(init));
        ParseLast(cfg, s, t, base, kind, offset, init, key, value);
        FeedSplit(cfg, u, PrintItems(init, keyed) + Separator(init), KeyText(key, keyed) + Print(value));
        assert PrintItems(items, keyed) == PrintItems(init, keyed) + Separator(init) + (KeyText(key, keyed) + Print(value));
    }
  }

  lemma InsideSound(cfg: Config, s: State, u: State, base: seq<JsonNode>, kind: JsonType, offset: nat)
    requires s.Parsing? && IsContainer(kind) && Inside(cfg, s, u, base, kind, offset, None_)
    ensures Sound(u)
  {
  }

  lemma InsideSettled(cfg: Config, s: State, u: State, base: seq<JsonNode>, kind: JsonType, offset: nat)
    requires s.Parsing? && IsContainer(kind) && Inside(cfg, s, u, base, kind, offset, None_)
    ensures Sound(u) && Settle(cfg, u) == u
  {
  }

  lemma {:induction false} ParseLast(cfg: Config, s: State, t: State, base: seq<JsonNode>, kind: JsonType, offset: nat,
                                     init: Values, key: string, value: Value)
    requires s.Parsing? && IsContainer(kind) && AtItem(cfg, s, t, base, kind, offset, init) && Sound(t)
    requires |base| + 1 + |ItemNodes(cfg, More(init, key, value), kind == JSON_OBJECT, offset + 1)| <= cfg.nodesCap
    requires |s.stack| + 1 + Depth(value) <= cfg.stackCap
    ensures Inside(cfg, s, Settle(cfg, Feed(cfg, t, KeyText(key, kind == JSON_OBJECT) + Print(value))),
                   base, kind, offset, More(init, key, value))
    decreases value, 1
  {
    hide Feed, Step, Settle, Escape, Sound, Nodes, PrintItems, KeyHash, Print, KeyText, Inherited, EntryNodes, CountChild, After, Inside;
    var keyed := kind == JSON_OBJECT;
    EntryLengths(cfg, init, key, value, keyed, offset + 1);
    ParseEntryKey(cfg, s, t, base, kind, offset, init, key);
    var u := Feed(cfg, t, KeyText(key, keyed));
    ValueNodes(cfg, t, u, base, kind, offset, init, key, value);
    ParseValue(cfg, u, value);
    FeedSplit(cfg, t, KeyText(key, keyed), Print(value));
    LastInside(cfg, s, t, u, Settle(cfg, Feed(cfg, u, Print(value))), base, kind, offset, init, key, value);
  }

  /** The value's nodes after those of its key complete the entry. */
  lemma ValueNodes(cfg: Config, t: State, u: State, base: seq<JsonNode>, kind: JsonType, offset: nat,
                   init: Values, key: string, value: Value)
    requires t.Parsing? && u.Parsing? && Sound(u) && IsContainer(kind)
    requires var keyed := kind == JSON_OBJECT; var at := ItemStart(init, keyed, offset + 1);
             && t.nodes == base + [JsonNode(kind, 0, U32(offset), 0, Count(init), None)] + ItemNodes(cfg, init, keyed, offset + 1)
             && u.nodes == t.nodes + (if keyed then [KeyNode(cfg, key, at)] else [])
             && u.consumed == at + |KeyText(key, keyed)|
             && Inherited(u) == if keyed then U28(KeyHash(cfg, key)) else 0
    ensures u.nodes + Nodes(cfg, value, u.consumed, Inherited(u)) ==
            base + [JsonNode(kind, 0, U32(offset), 0, Count(init), None)]
            + ItemNodes(cfg, More(init, key, value), kind == JSON_OBJECT, offset + 1)
  {
    hide Nodes, PrintItems, KeyHash, Print, KeyText, Inherited, Sound, EntryNodes, Quote, ItemStart, KeyNode, Count;
    var keyed := kind == JSON_OBJECT;
    EntryLengths(cfg, init, key, value, keyed, offset + 1);
    var at := ItemStart(init, keyed, offset + 1);
    var a, b := ItemNodes(cfg, init, keyed, offset + 1), EntryNodes(cfg, key, value, keyed, at);
    var head := base + [JsonNode(kind, 0, U32(offset), 0, Count(init), None)];
    assert ItemNodes(cfg, More(init, key, value), keyed, offset + 1) == a + b;
    assert head + (a + b) == head + a + b;
  }

  lemma LastInside(cfg: Config, s: State, t: State, u: State, w: State, base: seq<JsonNode>, kind: JsonType, offset: nat,
                   init: Values, key: string, value: Value)
    requires s.Parsing? && t.Parsing? && u.Parsing? && Sound(u) && IsContainer(kind)
    requires u.stack == s.stack + [|base|] && u.expecting == s.expecting + [false]
    requires u.consumed == ItemStart(init, kind == JSON_OBJECT, offset + 1) + |KeyText(key, kind == JSON_OBJECT)|
    requires u.nodes + Nodes(cfg, value, u.consumed, Inherited(u)) ==
             base + [JsonNode(kind, 0, U32(offset), 0, Count(init), None)]
             + ItemNodes(cfg, More(init, key, value), kind == JSON_OBJECT, offset + 1)
    requires After(u, w, CountChild(u.nodes + Nodes(cfg, value, u.consumed, Inherited(u)), u.stack), |Print(value)|)
    ensures Inside(cfg, s, w, base, kind, offset, More(init, key, value))
  {
    hide Nodes, PrintItems, KeyHash, Print, KeyText, Inherited, Sound, EntryNodes, Quote, CountChild, ItemNodes;
    EntryLengths(cfg, init, key, value, kind == JSON_OBJECT, offset + 1);
    CountInside(base, JsonNode(kind, 0, U32(offset), 0, Count(init), None),
                ItemNodes(cfg, More(init, key, value), kind == JSON_OBJECT, offset + 1), u.stack);
  }

  lemma EntryLengths(cfg: Config, init: Values, key: string, value: Value, keyed: bool, offset: nat)
    ensures |PrintItems(More(init, key, value), keyed)| ==
            |PrintItems(init, keyed)| + |Separator(init)| + |KeyText(key, keyed)| + |Print(value)|
    ensures |KeyText(key, keyed)| == if keyed then |Quote(key)| + 1 else 0
    ensures var at := ItemStart(init, keyed, offset);
            EntryNodes(cfg, key, value, keyed, at) ==
            (if keyed then [KeyNode(cfg, key, at)] else []) +
            Nodes(cfg, value, at + |KeyText(key, keyed)|, if keyed then U28(KeyHash(cfg, key)) else 0)
  {
    hide Nodes, KeyHash, Escape, Print, Quote;
  }

  lemma ParseContainer(cfg: Config, s: State, v: Value, kind: JsonType, items: Values)
    requires (v == VArray(items) && kind == JSON_ARRAY) || (v == VObject(items) && kind == JSON_OBJECT)
    requires AcceptsValue(s)
    requires |s.nodes| + |Nodes(cfg, v, s.consumed, Inherited(s))| <= cfg.nodesCap
    requires |s.stack| + Depth(v) <= cfg.stackCap
    ensures After(s, Feed(cfg, s, Print(v)),
                  CountChild(s.nodes + Nodes(cfg, v, s.consumed, Inherited(s)), s.stack), |Print(v)|)
    decreases items, 1
  {
    hide Feed, Step, Settle, Escape, Sound, PrintItems, ItemNodes, StepValue, CountChild, CloseContainer;
    var keyed := kind == JSON_OBJECT;
    var open, close := if keyed then '{' else '[', if keyed then '}' else ']';
    TopInRange(s);
    var base := CountChild(s.nodes, s.stack);
    var offset := s.consumed;
    BeginsValue(cfg, s, open);
    OpenStep(cfg, s, kind, open);
    var u := Step(cfg, s, open);
    ParseItems(cfg, s, u, base, kind, offset, items);
    var text := PrintItems(items, keyed);
    var r := Feed(cfg, u, text);
    FeedCons(cfg, s, open, text + [close]);
    FeedSnoc(cfg, u, text, close);
    assert Print(v) == [open] + (text + [close]);
    SettleStep(cfg, r, close);
    CloseStep(cfg, s, Settle(cfg, r), base, kind, offset, items, close);
    CountChildAppend(s.nodes, s.stack, Nodes(cfg, v, s.consumed, Inherited(s)));
  }

  lemma TopInRange(s: State)
    requires Ready(s)
    ensures s.stack != [] ==> s.stack[|s.stack| - 1] < |s.nodes|
  {
  }

  lemma OpenStep(cfg: Config, s: State, kind: JsonType, open: char)
    requires AcceptsValue(s) && IsContainer(kind) && open == if kind == JSON_OBJECT then '{' else '['
    requires |s.nodes| < cfg.nodesCap && |s.stack| < cfg.stackCap
    ensures Sound(s.(pendingValue := false))
    ensures Inside(cfg, s, StepValue(cfg, s, open), CountChild(s.nodes, s.stack), kind, s.consumed, None_)
  {
    hide CountChild;
  }

  lemma CloseStep(cfg: Config, s: State, t: State, base: seq<JsonNode>, kind: JsonType, offset: nat, items: Values, close: char)
    requires Ready(s) && IsContainer(kind) && Inside(cfg, s, t, base, kind, offset, items) && s.consumed == offset
    requires close == if kind == JSON_OBJECT then '}' else ']'
    requires |s.stack| > 0 ==> s.stack[|s.stack| - 1] < |base|
    requires |base| == |s.nodes|
    ensures var keyed := kind == JSON_OBJECT; var below := ItemNodes(cfg, items, keyed, offset + 1);
            After(s, Step(cfg, t, close),
                  base + ContainerNodes(kind, offset, |PrintItems(items, keyed)| + 2, Count(items), below),
                  |PrintItems(items, keyed)| + 2)
  {
    hide PrintItems, ItemNodes, Count, Step, After, CloseContainer;
    var below := ItemNodes(cfg, items, kind == JSON_OBJECT, offset + 1);
    var head := JsonNode(kind, 0, U32(offset), 0, Count(items), None);
    UpdateHead(base, head, below, head);
    CloseStepIs(cfg, t, close);
    ClosedNodes(s, t, base, head, below, |PrintItems(items, kind == JSON_OBJECT)| + 2);
    ClosedAfter(s, t, base + ContainerNodes(kind, offset, |PrintItems(items, kind == JSON_OBJECT)| + 2, Count(items), below),
                |PrintItems(items, kind == JSON_OBJECT)| + 2);
  }

  lemma ClosedNodes(s: State, t: State, base: seq<JsonNode>, head: JsonNode, below: seq<JsonNode>, len: nat)
    requires s.Parsing? && t.Parsing? && Sound(t) && t.stack == s.stack + [|base|] && t.expecting == s.expecting + [t.expecting[|t.expecting| - 1]]
    requires t.nodes == base + [head] + below && head.strval == None
    requires head.offset == U32(s.consumed) && head.len == 0 && t.consumed + 1 == s.consumed + len
    ensures var c := CloseContainer(t);
            && c.nodes == base + ContainerNodes(head.kind, s.consumed, len, head.children, below)
            && c.stack == s.stack && c.expecting == s.expecting
  {
    var head' := JsonNode(head.kind, U28(|below|), U32(s.consumed), (s.consumed + len - U32(s.consumed)) % 0x1_0000_0000, head.children, None);
    UpdateHead(base, head, below, head');
  }

  lemma ClosedAfter(s: State, t: State, nodes: seq<JsonNode>, len: nat)
    requires s.Parsing? && Ready(t) && t.stack != [] && !t.pendingValue && t.consumed + 1 == s.consumed + len
    requires var c := CloseContainer(t); c.nodes == nodes && c.stack == s.stack && c.expecting == s.expecting
    ensures After(s, Next(CloseContainer(t)), nodes, len)
  {
    hide Sound;
  }

  lemma UpdateHead(base: seq<JsonNode>, head: JsonNode, below: seq<JsonNode>, head': JsonNode)
    ensures (base + [head] + below)[|base|] == head
    ensures (base + [head] + below)[|base| := head'] == base + ([head'] + below)
    ensures |base + [head] + below| - (|base| + 1) == |below|
  {
  }

  lemma CloseStepIs(cfg: Config, t: State, close: char)
    requires t.Parsing? && Sound(t) && t.mode in {Normal, AfterValue} && t.stack != [] && !t.pendingValue
    requires IsContainer(t.nodes[Top(t)].kind) && close == if t.nodes[Top(t)].kind == JSON_OBJECT then '}' else ']'
    ensures Step(cfg, t, close) == Next(CloseContainer(t))
  {
    hide CloseContainer;
  }

  /** Parsing the text of a value adds its nodes and counts it as one child of the open container. */
  lemma {:induction false} ParseValue(cfg: Config, s: State, v: Value)
    requires AcceptsValue(s)
    requires |s.nodes| + |Nodes(cfg, v, s.consumed, Inherited(s))| <= cfg.nodesCap
    requires |s.stack| + Depth(v) <= cfg.stackCap
    ensures After(s, Settle(cfg, Feed(cfg, s, Print(v))),
                  CountChild(s.nodes + Nodes(cfg, v, s.consumed, Inherited(s)), s.stack), |Print(v)|)
    decreases v, 0
  {
    hide Feed, Step, Escape, CountChild, Inherited, Decimal, PrintItems, ItemNodes, EndNumber;
    match v {
      case VNull => ParseLiteral(cfg, s, JSON_NULL);
      case VBool(b) => ParseLiteral(cfg, s, if b then JSON_TRUE else JSON_FALSE);
      case VInt(n) => ParseInt(cfg, s, n);
      case VString(text) => ParseString(cfg, s, text);
      case VArray(items) => ParseContainer(cfg, s, v, JSON_ARRAY, items);
      case VObject(fields) => ParseContainer(cfg, s, v, JSON_OBJECT, fields);
    }
  }

  /** A printed value is accepted, and its array is `Nodes`. */
  lemma PrintedIsAccepted(cfg: Config, v: Value)
    requires |Nodes(cfg, v, 0, 0)| <= cfg.nodesCap && Depth(v) <= cfg.stackCap
    ensures var s := Finish(cfg, Feed(cfg, INITIAL, Print(v)));
            Accepted(s) && s.nodes == Nodes(cfg, v, 0, 0)
  {
    hide Nodes, Print, Feed, InheritHash;
    ParseValue(cfg, INITIAL, v);
  }
}
