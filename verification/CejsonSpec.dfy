/** The streaming JSON parser as an automaton over single bytes.

    The parser writes one flat array of nodes: a container is followed by its whole
    subtree, a key by its value.  `Step` is what one byte does to the parser; text fed
    in any number of pieces is the fold of `Step` over its bytes.  Errors stay. */
module CejsonSpec {
  import opened Text

  datatype JsonType =
    | JSON_NULL | JSON_TRUE | JSON_FALSE | JSON_NUMBER_INT | JSON_NUMBER_FLOAT | JSON_STRING | JSON_ARRAY | JSON_OBJECT

  datatype JsonNode = JsonNode(kind: JsonType, hash: nat, offset: nat, len: nat, children: nat, strval: Option<string>)

  datatype Mode = Normal | AfterValue | ExpectColon | InString | InNumber | InLiteral

  /** What is known about the number being read. */
  datatype NumberFlags = NumberFlags(
    hasDot: bool, hasExp: bool, hasDigit: bool, digitAfterDot: bool, digitAfterExp: bool,
    endsWithDot: bool, endsWithE: bool, endsWithSign: bool, negative: bool)

  datatype ErrorCode = Unexpected | Incomplete | Capacity

  /** Sizes fixed at initialisation, and the mixing function of key hashes. */
  datatype Config = Config(nodesCap: nat, stackCap: nat, mix: (nat, char) -> nat)

  /** `stack` holds the positions of the open containers; `expecting` says for each
      whether a key comes next. */
  datatype State =
    | Failed(error: ErrorCode)
    | Parsing(
        nodes: seq<JsonNode>,
        stack: seq<nat>,
        expecting: seq<bool>,
        mode: Mode,
        consumed: nat,
        pendingOffset: nat,
        pendingLen: nat,
        pendingHash: nat,
        inEscape: bool,
        inUniEscape: bool,
        uniDigits: nat,
        isKey: bool,
        num: NumberFlags,
        literal: JsonType,
        matched: nat,
        pendingValue: bool)

  const NO_FLAGS := NumberFlags(false, false, false, false, false, false, false, false, false)
  const INITIAL := Parsing([], [], [], Normal, 0, 0, 0, 0, false, false, 0, false, NO_FLAGS, JSON_NULL, 0, false)

  function U32(x: nat): nat { x % 0x1_0000_0000 }
  function U28(x: nat): nat { x % 0x1000_0000 }

  predicate IsWhite(c: char) { c == ' ' || c == '\t' || c == '\n' || c == '\r' }

  predicate IsContainer(kind: JsonType) { kind == JSON_ARRAY || kind == JSON_OBJECT }

  /** Facts every reachable state has; they make the array accesses of the parser safe. */
  predicate Sound(s: State) {
    s.Parsing? ==>
      && |s.expecting| == |s.stack|
      && (forall i :: 0 <= i < |s.stack| ==> s.stack[i] < |s.nodes| && IsContainer(s.nodes[s.stack[i]].kind))
      && (s.mode == ExpectColon || (s.mode == InString && s.isKey) ==> s.stack != [])
      && (s.mode == InLiteral ==> s.literal in {JSON_TRUE, JSON_FALSE, JSON_NULL} && s.matched < |LiteralText(s.literal)|)
  }

  function Top(s: State): (i: nat)
    requires s.Parsing? && s.stack != []
    ensures i == s.stack[|s.stack| - 1]
  {
    s.stack[|s.stack| - 1]
  }

  function LiteralText(t: JsonType): string {
    match t
    case JSON_TRUE => "true"
    case JSON_FALSE => "false"
    case _ => "null"
  }

  // ---------------------------------------------------------------------
  // Adding nodes

  /** One more child for the innermost open container. */
  function CountChild(nodes: seq<JsonNode>, stack: seq<nat>): (r: seq<JsonNode>)
    requires stack != [] ==> stack[|stack| - 1] < |nodes|
    ensures |r| == |nodes| && forall i :: 0 <= i < |nodes| ==> r[i].kind == nodes[i].kind
  {
    if stack == [] then nodes
    else
      var t := stack[|stack| - 1];
      nodes[t := nodes[t].(children := nodes[t].children + 1)]
  }

  /** Numbers and literals take over the hash of the key before them. */
  function InheritHash(s: State, node: JsonNode): JsonNode
    requires s.Parsing? && Sound(s)
  {
    if s.stack != [] && s.nodes[Top(s)].kind == JSON_OBJECT && |s.nodes| > 0 && s.nodes[|s.nodes| - 1].kind == JSON_STRING
    then node.(hash := s.nodes[|s.nodes| - 1].hash)
    else node
  }

  /** A finished number or literal. */
  function AddScalar(cfg: Config, s: State, node: JsonNode): (r: State)
    requires s.Parsing? && Sound(s)
    ensures Sound(r) && (r.Parsing? ==> r.mode == AfterValue)
  {
    if |s.nodes| >= cfg.nodesCap then Failed(Capacity)
    else s.(nodes := CountChild(s.nodes + [InheritHash(s, node)], s.stack), mode := AfterValue)
  }

  function AddString(cfg: Config, s: State): (r: State)
    requires s.Parsing? && Sound(s) && s.mode == InString
    ensures Sound(r)
  {
    if |s.nodes| >= cfg.nodesCap then Failed(Capacity)
    else
      var node := JsonNode(JSON_STRING, if s.isKey then U28(s.pendingHash) else 0, U32(s.pendingOffset), U32(s.pendingLen), 0, None);
      if s.isKey then
        s.(nodes := s.nodes + [node], mode := ExpectColon, pendingValue := true,
           inEscape := false, inUniEscape := false, uniDigits := 0)
      else
        s.(nodes := CountChild(s.nodes + [node], s.stack), mode := AfterValue,
           inEscape := false, inUniEscape := false, uniDigits := 0)
  }

  function OpenContainer(cfg: Config, s: State, kind: JsonType): (r: State)
    requires s.Parsing? && Sound(s) && s.mode == Normal && IsContainer(kind)
    ensures Sound(r)
    ensures r.Parsing? && |s.nodes| <= cfg.nodesCap ==> |r.nodes| <= cfg.nodesCap
  {
    if |s.nodes| >= cfg.nodesCap || |s.stack| >= cfg.stackCap then Failed(Capacity)
    else
      var node := JsonNode(kind, 0, U32(s.consumed), 0, 0, None);
      s.(nodes := CountChild(s.nodes, s.stack) + [node],
         stack := s.stack + [|s.nodes|],
         expecting := s.expecting + [kind == JSON_OBJECT],
         pendingValue := false)
  }

  /** The span of a container is known when it closes: the number of nodes after its own. */
  function CloseContainer(s: State): (r: State)
    requires s.Parsing? && Sound(s) && s.stack != []
    ensures Sound(r)
    ensures r.Parsing? && |r.nodes| == |s.nodes|
  {
    var t := Top(s);
    var node := s.nodes[t];
    var len := (s.consumed - node.offset + 1) % 0x1_0000_0000;
    s.(nodes := s.nodes[t := node.(len := len, hash := U28(|s.nodes| - (t + 1)))],
       stack := s.stack[..|s.stack| - 1],
       expecting := s.expecting[..|s.expecting| - 1],
       mode := AfterValue)
  }

  // ---------------------------------------------------------------------
  // One byte

  function Next(s: State): (r: State)
    ensures Sound(s) ==> Sound(r)
  {
    if s.Parsing? then s.(consumed := s.consumed + 1) else s
  }

  function StepString(cfg: Config, s: State, c: char): (r: State)
    requires s.Parsing? && Sound(s) && s.mode == InString
    ensures Sound(r)
  {
    if s.inUniEscape then
      if !IsHexDigit(c) then Failed(Unexpected)
      else Next(s.(uniDigits := s.uniDigits + 1, inUniEscape := s.uniDigits + 1 != 4, pendingLen := s.pendingLen + 1))
    else if s.inEscape then
      if c in "\"\\/bfnrt" then Next(s.(inEscape := false, pendingLen := s.pendingLen + 1))
      else if c == 'u' then Next(s.(inEscape := false, inUniEscape := true, uniDigits := 0, pendingLen := s.pendingLen + 1))
      else Failed(Unexpected)
    else if c == '\\' then Next(s.(inEscape := true, pendingLen := s.pendingLen + 1))
    else if c == '"' then Next(AddString(cfg, s))
    else
      Next(s.(pendingLen := s.pendingLen + 1,
              pendingHash := if s.isKey then cfg.mix(s.pendingHash, c) else s.pendingHash))
  }

  function StepLiteral(cfg: Config, s: State, c: char): (r: State)
    requires s.Parsing? && Sound(s) && s.mode == InLiteral
    ensures Sound(r)
  {
    var text := LiteralText(s.literal);
    if c != text[s.matched] then Failed(Unexpected)
    else if s.matched + 1 < |text| then Next(s.(matched := s.matched + 1))
    else
      var node := JsonNode(s.literal, 0, U32(s.pendingOffset), |text|, 0, None);
      Next(AddScalar(cfg, s.(literal := JSON_NULL, matched := 0), node))
  }

  /** Whether c continues the number, and the flags after it. */
  function NumberChar(f: NumberFlags, c: char): Option<NumberFlags> {
    if IsDigit(c) then
      Some(f.(hasDigit := true,
              digitAfterDot := f.digitAfterDot || f.hasDot,
              digitAfterExp := f.digitAfterExp || f.hasExp,
              endsWithDot := false, endsWithE := false, endsWithSign := false))
    else if c == '.' && !f.hasDot && !f.hasExp then Some(f.(hasDot := true, endsWithDot := true))
    else if (c == 'e' || c == 'E') && !f.hasExp && f.hasDigit then Some(f.(hasExp := true, endsWithE := true))
    else if (c == '+' || c == '-') && f.endsWithE then Some(f.(endsWithSign := true, endsWithE := false))
    else None
  }

  predicate NumberComplete(f: NumberFlags, len: nat) {
    !(!f.hasDigit || (f.negative && len == 1) || (f.hasDot && !f.digitAfterDot) || (f.hasExp && !f.digitAfterExp)
      || f.endsWithDot || f.endsWithE || f.endsWithSign)
  }

  /** A number ends only when something else follows: this adds its node. */
  function EndNumber(cfg: Config, s: State): (r: State)
    requires s.Parsing? && Sound(s) && s.mode == InNumber
    ensures Sound(r) && (r.Parsing? ==> r.mode == AfterValue)
  {
    if !NumberComplete(s.num, s.pendingLen) then Failed(Unexpected)
    else
      AddScalar(cfg, s, JsonNode(if s.num.hasDot || s.num.hasExp then JSON_NUMBER_FLOAT else JSON_NUMBER_INT,
                                 0, U32(s.pendingOffset), U32(s.pendingLen), 0, None))
  }

  function BeginString(s: State, key: bool): (r: State)
    requires s.Parsing? && Sound(s) && (key ==> s.stack != [])
    ensures Sound(r)
  {
    s.(mode := InString, isKey := key, pendingHash := if key then 0 else s.pendingHash,
       pendingOffset := s.consumed + 1, pendingLen := 0, inEscape := false)
  }

  function BeginNumber(s: State, c: char): (r: State)
    requires s.Parsing? && Sound(s)
    ensures Sound(r)
  {
    s.(mode := InNumber, pendingOffset := s.consumed, pendingLen := 1,
       num := s.num.(hasDigit := IsDigit(c), negative := c == '-', hasDot := false, hasExp := false))
  }

  function BeginLiteral(s: State, t: JsonType): (r: State)
    requires s.Parsing? && Sound(s) && t in {JSON_TRUE, JSON_FALSE, JSON_NULL}
    ensures Sound(r)
  {
    s.(mode := InLiteral, literal := t, matched := 1, pendingOffset := s.consumed)
  }

  /** A byte where a value may start. */
  function StepValue(cfg: Config, s: State, c: char): (r: State)
    requires s.Parsing? && Sound(s) && s.mode == Normal
    ensures Sound(r)
    ensures r.Parsing? && |s.nodes| <= cfg.nodesCap ==> |r.nodes| <= cfg.nodesCap
  {
    var t := s.(pendingValue := false);
    if c == '"' then Next(BeginString(t, false))
    else if c == '{' then Next(OpenContainer(cfg, t, JSON_OBJECT))
    else if c == '[' then Next(OpenContainer(cfg, t, JSON_ARRAY))
    else if c == '-' || IsDigit(c) then Next(BeginNumber(t, c))
    else if c == 't' then Next(BeginLiteral(t, JSON_TRUE))
    else if c == 'f' then Next(BeginLiteral(t, JSON_FALSE))
    else if c == 'n' then Next(BeginLiteral(t, JSON_NULL))
    else Failed(Unexpected)
  }

  predicate ClosesTop(s: State, c: char)
    requires s.Parsing? && Sound(s)
  {
    s.stack != [] && ((c == '}' && s.nodes[Top(s)].kind == JSON_OBJECT) || (c == ']' && s.nodes[Top(s)].kind == JSON_ARRAY))
  }

  /** A comma: in an object the next thing is a key. */
  function AfterComma(s: State): (r: State)
    requires s.Parsing? && Sound(s) && s.mode == AfterValue
    ensures Sound(r) && r.Parsing? && r.nodes == s.nodes
  {
    var u := s.(mode := Normal);
    if s.stack != [] && s.nodes[Top(s)].kind == JSON_OBJECT then u.(expecting := s.expecting[|s.stack| - 1 := true]) else u
  }

  /** A byte between values: blanks, brackets, commas and beginnings of values. */
  function StepStructure(cfg: Config, s: State, c: char): (r: State)
    requires s.Parsing? && Sound(s) && (s.mode == Normal || s.mode == AfterValue)
    ensures Sound(r)
    ensures r.Parsing? && |s.nodes| <= cfg.nodesCap ==> |r.nodes| <= cfg.nodesCap
  {
    if IsWhite(c) then Next(s)
    else if ClosesTop(s, c) then
      if s.pendingValue then Failed(Unexpected) else Next(CloseContainer(s))
    else if s.mode == AfterValue then
      if c != ',' then Failed(Unexpected) else Next(AfterComma(s))
    else if s.stack != [] && s.expecting[|s.stack| - 1] then
      if c != '"' then Failed(Unexpected) else Next(BeginString(s, true))
    else StepValue(cfg, s, c)
  }

  function Step(cfg: Config, s: State, c: char): (r: State)
    requires Sound(s)
    ensures Sound(r)
  {
    if s.Failed? then s
    else match s.mode
      case ExpectColon =>
        if c != ':' then Failed(Unexpected)
        else Next(s.(mode := Normal, expecting := s.expecting[|s.stack| - 1 := false]))
      case InLiteral => StepLiteral(cfg, s, c)
      case InString => StepString(cfg, s, c)
      case InNumber =>
        (match NumberChar(s.num, c)
         case Some(f) => Next(s.(num := f, pendingLen := s.pendingLen + 1))
         case None =>
           var t := EndNumber(cfg, s);
           if t.Failed? then t else StepStructure(cfg, t, c))
      case _ => StepStructure(cfg, s, c)
  }

  /** All bytes of a text. */
  function Feed(cfg: Config, s: State, text: string): (r: State)
    requires Sound(s)
    ensures Sound(r)
  {
    if text == "" then s else Step(cfg, Feed(cfg, s, text[..|text| - 1]), text[|text| - 1])
  }

  /** End of input: a number still being read is added, anything else unfinished is an error. */
  function Finish(cfg: Config, s: State): (r: State)
    requires Sound(s)
    ensures Sound(r)
  {
    if s.Failed? then s
    else if s.stack != [] then Failed(Incomplete)
    else if s.mode == InNumber then
      if !NumberComplete(s.num, s.pendingLen) then Failed(Unexpected)
      else EndNumber(cfg, s)
    else if s.mode == InString || s.mode == InLiteral then Failed(Incomplete)
    else s
  }

  predicate Accepted(s: State) { s.Parsing? && |s.nodes| > 0 }

  /** Two pieces are worth their concatenation. */
  lemma {:induction false} FeedSplit(cfg: Config, s: State, x: string, y: string)
    requires Sound(s)
    ensures Feed(cfg, s, x + y) == Feed(cfg, Feed(cfg, s, x), y)
  {
    if y == "" {
      assert x + y == x;
    } else {
      hide Step, Sound;
      var last := |y| - 1;
      assert (x + y)[..|x + y| - 1] == x + y[..last];
      FeedSplit(cfg, s, x, y[..last]);
    }
  }

  // ---------------------------------------------------------------------
  // Feeding short texts

  lemma FeedNothing(cfg: Config, s: State)
    requires Sound(s)
    ensures Feed(cfg, s, "") == s
  {
  }

  lemma FeedOne(cfg: Config, s: State, c: char)
    requires Sound(s)
    ensures Feed(cfg, s, [c]) == Step(cfg, s, c)
  {
    hide Step, Sound;
    FeedNothing(cfg, s);
    assert [c][..0] == "";
  }

  lemma FeedCons(cfg: Config, s: State, c: char, rest: string)
    requires Sound(s)
    ensures Feed(cfg, s, [c] + rest) == Feed(cfg, Step(cfg, s, c), rest)
  {
    hide Step, Sound;
    FeedOne(cfg, s, c);
    FeedSplit(cfg, s, [c], rest);
  }

  lemma FeedSnoc(cfg: Config, s: State, text: string, c: char)
    requires Sound(s)
    ensures Feed(cfg, s, text + [c]) == Step(cfg, Feed(cfg, s, text), c)
  {
    hide Step, Sound;
    assert (text + [c])[..|text + [c]| - 1] == text;
  }
}
