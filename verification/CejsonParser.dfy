/** The parser on its fixed arrays: the same states as `CejsonSpec.Step`, for any split of the input. */
module CejsonParser {
  import opened Text
  import opened CejsonSpec

  /** What the parser remembers between two bytes, apart from its arrays. */
  datatype Scan = Scan(
    mode: Mode,
    pendingOffset: nat,
    pendingLen: nat,
    pendingHash: nat,
    inEscape: bool,
    inUniEscape: bool,
    uniDigits: nat,
    isKey: bool,
    num: NumberFlags,
    literal: JsonType,
    matched: nat,
    pendingValue: bool)

  function Combine(nodes: seq<JsonNode>, stack: seq<nat>, expecting: seq<bool>, consumed: nat, scan: Scan): State {
    Parsing(nodes, stack, expecting, scan.mode, consumed,
            scan.pendingOffset, scan.pendingLen, scan.pendingHash, scan.inEscape, scan.inUniEscape, scan.uniDigits,
            scan.isKey, scan.num, scan.literal, scan.matched, scan.pendingValue)
  }

  /** The start of a string, number or literal at position `at`. */
  function BeginValue(scan: Scan, c: char, at: nat): Option<Scan> {
    if c == '"' then
      Some(scan.(pendingValue := false, mode := InString, isKey := false, pendingOffset := at + 1, pendingLen := 0, inEscape := false))
    else if c == '-' || IsDigit(c) then
      Some(scan.(pendingValue := false, mode := InNumber, pendingOffset := at, pendingLen := 1,
                 num := scan.num.(hasDigit := IsDigit(c), negative := c == '-', hasDot := false, hasExp := false)))
    else if c == 't' || c == 'f' || c == 'n' then
      Some(scan.(pendingValue := false, mode := InLiteral, matched := 1, pendingOffset := at,
                 literal := if c == 't' then JSON_TRUE else if c == 'f' then JSON_FALSE else JSON_NULL))
    else None
  }

  lemma BeginValueIs(cfg: Config, s: State, scan: Scan, c: char)
    requires s.Parsing? && Sound(s) && s.mode == Normal && c != '{' && c != '['
    requires s == Combine(s.nodes, s.stack, s.expecting, s.consumed, scan)
    ensures StepValue(cfg, s, c) ==
            match BeginValue(scan, c, s.consumed)
            case None => Failed(Unexpected)
            case Some(next) => Combine(s.nodes, s.stack, s.expecting, s.consumed + 1, next)
  {
    hide Sound, OpenContainer, IsDigit;
    if c == '"' {
    } else if c == '-' || IsDigit(c) {
    } else if c == 't' || c == 'f' || c == 'n' {
    }
  }

  lemma OpenIs(cfg: Config, s: State, kind: JsonType)
    requires s.Parsing? && Sound(s) && s.mode == Normal && IsContainer(kind) && !s.pendingValue
    ensures OpenContainer(cfg, s, kind) ==
            if |s.nodes| >= cfg.nodesCap || |s.stack| >= cfg.stackCap then Failed(Capacity)
            else
              var u := s.(nodes := CountChild(s.nodes, s.stack));
              var v := u.(nodes := u.nodes + [JsonNode(kind, 0, U32(s.consumed), 0, 0, None)]);
              v.(stack := v.stack + [|s.nodes|], expecting := v.expecting + [kind == JSON_OBJECT])
  {
    hide CountChild;
  }

  lemma SoundPending(s: State)
    requires s.Parsing? && Sound(s)
    ensures Sound(s.(pendingValue := false))
  {
  }

  lemma LiteralSound(s: State)
    requires s.Parsing? && Sound(s) && s.mode == InLiteral
    ensures s.matched < |LiteralText(s.literal)|
    ensures Sound(s.(literal := JSON_NULL, matched := 0))
  {
  }

  class JsonParser {
    const nodes: array<JsonNode>
    const stack: array<nat>
    /** One element longer than the stack: it is written before the depth is checked. */
    const expectingKey: array<bool>
    const stackCap: nat
    const mix: (nat, char) -> nat

    var nodesLen: nat
    var stackLen: nat
    var consumed: nat
    var error: Option<ErrorCode>
    var scan: Scan

    function Cfg(): Config { Config(nodes.Length, stackCap, mix) }

    ghost predicate Shape()
      reads this`error, this`nodesLen, this`stackLen
    {
      && stack.Length == stackCap && expectingKey.Length == stackCap + 1
      && (error.None? ==> nodesLen <= nodes.Length && stackLen <= stackCap)
    }

    ghost function Nodes(): (s: seq<JsonNode>)
      requires nodesLen <= nodes.Length
      reads this`nodesLen, nodes
      ensures |s| == nodesLen
    {
      nodes[..nodesLen]
    }

    ghost function Stack(): (s: seq<nat>)
      requires stackLen <= stack.Length
      reads this`stackLen, stack
      ensures |s| == stackLen
    {
      stack[..stackLen]
    }

    ghost function Expecting(): (s: seq<bool>)
      requires stackLen <= expectingKey.Length
      reads this`stackLen, expectingKey
      ensures |s| == stackLen
    {
      expectingKey[..stackLen]
    }

    /** The state, `pos` bytes into the current piece. */
    ghost function At(pos: nat): State
      requires Shape()
      reads this, nodes, stack, expectingKey
    {
      if error.Some? then Failed(error.value)
      else Combine(Nodes(), Stack(), Expecting(), consumed + pos, scan)
    }

    ghost predicate Valid()
      reads this, nodes, stack, expectingKey
    {
      Shape() && Sound(At(0))
    }

    constructor (nodesCap: nat, stackCap: nat, mix: (nat, char) -> nat)
      ensures Valid() && At(0) == INITIAL && Cfg() == Config(nodesCap, stackCap, mix)
      ensures fresh(nodes) && fresh(stack) && fresh(expectingKey)
    {
      nodes := new JsonNode[nodesCap](_ => JsonNode(JSON_NULL, 0, 0, 0, 0, None));
      stack := new nat[stackCap](_ => 0);
      expectingKey := new bool[stackCap + 1](_ => false);
      this.stackCap := stackCap;
      this.mix := mix;
      nodesLen, stackLen, consumed, error := 0, 0, 0, None;
      scan := Scan(Normal, 0, 0, 0, false, false, 0, false, NO_FLAGS, JSON_NULL, 0, false);
    }

    method Fail(e: ErrorCode, ghost pos: nat)
      requires stack.Length == stackCap && expectingKey.Length == stackCap + 1
      modifies this`error
      ensures Shape() && At(pos) == Failed(e)
    {
      error := Some(e);
    }

    /** Takes the next node, if there is one. */
    method Push(node: JsonNode, ghost pos: nat) returns (ok: bool)
      requires Shape() && error.None?
      modifies this`nodesLen, this`error, nodes
      ensures Shape() && ok == (old(nodesLen) < nodes.Length)
      ensures At(pos) == if ok then var s := old(At(pos)); s.(nodes := s.nodes + [node]) else Failed(Capacity)
    {
      var idx := nodesLen;
      nodesLen := nodesLen + 1;
      if idx >= nodes.Length {
        Fail(Capacity, pos);
        return false;
      }
      nodes[idx] := node;
      assert nodes[..nodesLen] == old(nodes[..nodesLen]) + [node];
      return true;
    }

    /** One more child for the open container. */
    method CountTop(ghost pos: nat)
      requires Shape() && error.None? && (stackLen > 0 ==> stack[stackLen - 1] < nodesLen)
      modifies nodes
      ensures Shape() && var s := old(At(pos)); At(pos) == s.(nodes := CountChild(s.nodes, s.stack))
    {
      if stackLen > 0 {
        var t := stack[stackLen - 1];
        nodes[t] := nodes[t].(children := nodes[t].children + 1);
        assert nodes[..nodesLen] == CountChild(old(nodes[..nodesLen]), stack[..stackLen]);
      }
    }

    ghost predicate TopKnown()
      reads this, stack, nodes
    {
      && Shape() && error.None?
      && (stackLen > 0 ==> stack[stackLen - 1] < nodesLen && IsContainer(nodes[stack[stackLen - 1]].kind))
    }

    lemma TopIsKnown(pos: nat)
      requires Shape() && At(pos).Parsing? && Sound(At(pos))
      ensures TopKnown()
      ensures stackLen > 0 ==> Top(At(pos)) == stack[stackLen - 1] && At(pos).nodes[Top(At(pos))] == nodes[stack[stackLen - 1]]
    {
    }

    /** A node inside an object takes over the hash of the key before it. */
    method Inherited(node: JsonNode, ghost pos: nat) returns (n: JsonNode)
      requires Shape() && At(pos).Parsing? && Sound(At(pos))
      ensures n == InheritHash(At(pos), node)
    {
      TopIsKnown(pos);
      n := node;
      if stackLen > 0 && nodes[stack[stackLen - 1]].kind == JSON_OBJECT && nodesLen > 0 && nodes[nodesLen - 1].kind == JSON_STRING {
        n := node.(hash := nodes[nodesLen - 1].hash);
      }
    }

    /** Adds a number or a literal. */
    method AddScalarNode(node: JsonNode, ghost pos: nat)
      requires Shape() && At(pos).Parsing? && Sound(At(pos))
      modifies this`nodesLen, this`error, this`scan, nodes
      ensures Shape() && At(pos) == AddScalar(Cfg(), old(At(pos)), node)
    {
      hide Sound, CountChild, InheritHash, Nodes, Stack, Expecting;
      TopIsKnown(pos);
      var n := Inherited(node, pos);
      var ok := Push(n, pos);
      if ok {
        CountTop(pos);
        scan := scan.(mode := AfterValue);
      }
    }

    /** The closing quote of a string. */
    method AddStringNode(ghost pos: nat)
      requires Shape() && At(pos).Parsing? && Sound(At(pos)) && scan.mode == InString
      modifies this`nodesLen, this`error, this`scan, nodes
      ensures Shape() && At(pos) == AddString(Cfg(), old(At(pos)))
    {
      hide Sound, CountChild, Nodes, Stack, Expecting;
      TopIsKnown(pos);
      var ok := Push(JsonNode(JSON_STRING, if scan.isKey then U28(scan.pendingHash) else 0, U32(scan.pendingOffset), U32(scan.pendingLen), 0, None), pos);
      if ok {
        if !scan.isKey {
          CountTop(pos);
        }
        scan := scan.(mode := if scan.isKey then ExpectColon else AfterValue, pendingValue := scan.isKey || scan.pendingValue,
                      inEscape := false, inUniEscape := false, uniDigits := 0);
      }
    }

    /** Changes what is remembered, and nothing else. */
    method Remember(next: Scan, ghost pos: nat)
      requires Shape() && error.None?
      modifies this`scan
      ensures scan == next
      ensures var s := old(At(pos)); At(pos) == Combine(s.nodes, s.stack, s.expecting, s.consumed, next)
      ensures At(pos + 1) == Next(At(pos))
    {
      scan := next;
    }

    method OnString(c: char, pos: nat)
      requires Shape() && At(pos).Parsing? && Sound(At(pos)) && scan.mode == InString
      modifies this`nodesLen, this`error, this`scan, nodes
      ensures Shape() && At(pos + 1) == StepString(Cfg(), old(At(pos)), c)
    {
      ScanIs(pos);
      hide Sound, AddString, IsHexDigit, Nodes, Stack, Expecting, At;
      if scan.inUniEscape {
        if !IsHexDigit(c) {
          Fail(Unexpected, pos + 1);
          return;
        }
        var digits := scan.uniDigits + 1;
        Remember(scan.(uniDigits := digits, inUniEscape := digits != 4, pendingLen := scan.pendingLen + 1), pos);
      } else if scan.inEscape {
        if c in "\"\\/bfnrt" {
          Remember(scan.(inEscape := false, pendingLen := scan.pendingLen + 1), pos);
        } else if c == 'u' {
          Remember(scan.(inEscape := false, inUniEscape := true, uniDigits := 0, pendingLen := scan.pendingLen + 1), pos);
        } else {
          Fail(Unexpected, pos + 1);
        }
      } else if c == '\\' {
        Remember(scan.(inEscape := true, pendingLen := scan.pendingLen + 1), pos);
      } else if c == '"' {
        AddStringNode(pos);
        NextIs(pos);
      } else {
        Remember(scan.(pendingLen := scan.pendingLen + 1,
                      pendingHash := if scan.isKey then mix(scan.pendingHash, c) else scan.pendingHash), pos);
      }
    }

    method OnLiteral(c: char, pos: nat)
      requires Shape() && At(pos).Parsing? && Sound(At(pos)) && scan.mode == InLiteral
      modifies this`nodesLen, this`error, this`scan, nodes
      ensures Shape() && At(pos + 1) == StepLiteral(Cfg(), old(At(pos)), c)
    {
      LiteralSound(At(pos));
      ScanIs(pos);
      hide AddScalar, Nodes, Stack, Expecting, Sound, LiteralText, At;
      var expected := LiteralText(scan.literal);
      if c != expected[scan.matched] {
        Fail(Unexpected, pos + 1);
        return;
      }
      if scan.matched + 1 < |expected| {
        Remember(scan.(matched := scan.matched + 1), pos);
      } else {
        CompleteLiteral(pos);
        NextIs(pos);
      }
    }

    method CompleteLiteral(ghost pos: nat)
      requires Shape() && At(pos).Parsing? && Sound(At(pos)) && scan.mode == InLiteral
      modifies this`nodesLen, this`error, this`scan, nodes
      ensures Shape()
      ensures var s := old(At(pos));
              && Sound(s.(literal := JSON_NULL, matched := 0))
              && At(pos) == AddScalar(Cfg(), s.(literal := JSON_NULL, matched := 0),
                                      JsonNode(s.literal, 0, U32(s.pendingOffset), |LiteralText(s.literal)|, 0, None))
    {
      LiteralSound(At(pos));
      hide AddScalar, Nodes, Stack, Expecting, Sound, LiteralText;
      var node := JsonNode(scan.literal, 0, U32(scan.pendingOffset), |LiteralText(scan.literal)|, 0, None);
      scan := scan.(literal := JSON_NULL, matched := 0);
      AddScalarNode(node, pos);
    }

    /** A byte of a number, or the first one after it, which is left to be read. */
    method OnNumber(c: char, pos: nat) returns (read: bool)
      requires Shape() && At(pos).Parsing? && Sound(At(pos)) && scan.mode == InNumber
      modifies this`nodesLen, this`error, this`scan, nodes
      ensures Shape()
      ensures var s := old(At(pos)); var f := NumberChar(s.num, c);
              && (read <==> f.Some?)
              && At(pos) == if read then s.(num := f.value, pendingLen := s.pendingLen + 1) else EndNumber(Cfg(), s)
    {
      hide Sound, AddScalar, NumberComplete, Nodes, Stack, Expecting;
      var f := NumberChar(scan.num, c);
      if f.Some? {
        scan := scan.(num := f.value, pendingLen := scan.pendingLen + 1);
        return true;
      }
      AddNumber(pos);
      return false;
    }

    method AddNumber(ghost pos: nat)
      requires Shape() && At(pos).Parsing? && Sound(At(pos)) && scan.mode == InNumber
      modifies this`nodesLen, this`error, this`scan, nodes
      ensures Shape() && At(pos) == EndNumber(Cfg(), old(At(pos)))
    {
      hide Sound, AddScalar, NumberComplete, Nodes, Stack, Expecting;
      if !NumberComplete(scan.num, scan.pendingLen) {
        Fail(Unexpected, pos);
        return;
      }
      AddScalarNode(JsonNode(if scan.num.hasDot || scan.num.hasExp then JSON_NUMBER_FLOAT else JSON_NUMBER_INT,
                             0, U32(scan.pendingOffset), U32(scan.pendingLen), 0, None), pos);
    }

    /** The flag is written before the depth is checked. */
    method PushFrame(idx: nat, expecting: bool, ghost pos: nat)
      requires Shape() && error.None?
      modifies this`stackLen, this`error, stack, expectingKey
      ensures Shape()
      ensures At(pos) == if old(stackLen) >= stackCap then Failed(Capacity)
                         else var s := old(At(pos)); s.(stack := s.stack + [idx], expecting := s.expecting + [expecting])
    {
      expectingKey[stackLen] := expecting;
      if stackLen >= stackCap {
        Fail(Capacity, pos);
        return;
      }
      stack[stackLen] := idx;
      stackLen := stackLen + 1;
      assert stack[..stackLen] == old(stack[..stackLen]) + [idx];
      assert expectingKey[..stackLen] == old(expectingKey[..stackLen]) + [expecting];
      assert Nodes() == old(Nodes());
    }

    lemma Sizes(pos: nat)
      requires Shape() && error.None?
      ensures At(pos).Parsing? && At(pos).consumed == consumed + pos
      ensures |At(pos).nodes| == nodesLen && |At(pos).stack| == stackLen
    {
    }

    method Open(kind: JsonType, pos: nat)
      requires Shape() && At(pos).Parsing? && Sound(At(pos)) && scan.mode == Normal && IsContainer(kind) && !scan.pendingValue
      modifies this`nodesLen, this`stackLen, this`error, nodes, stack, expectingKey
      ensures Shape() && At(pos) == OpenContainer(Cfg(), old(At(pos)), kind)
    {
      TopIsKnown(pos);
      PendingIs(pos);
      Sizes(pos);
      OpenIs(Cfg(), At(pos), kind);
      hide Sound, CountChild, Combine, At, Nodes, Stack, Expecting, OpenContainer;
      var idx := nodesLen;
      CountTop(pos);
      var ok := Push(JsonNode(kind, 0, U32(consumed + pos), 0, 0, None), pos);
      if ok {
        Sizes(pos);
        PushFrame(idx, kind == JSON_OBJECT, pos);
      }
    }

    lemma PendingIs(pos: nat)
      requires Shape() && At(pos).Parsing?
      ensures At(pos).pendingValue == scan.pendingValue && At(pos).mode == scan.mode
    {
    }

    method Close(pos: nat)
      requires Shape() && At(pos).Parsing? && Sound(At(pos)) && stackLen > 0
      modifies this`scan, this`stackLen, nodes
      ensures Shape() && At(pos) == CloseContainer(old(At(pos)))
    {
      hide Sound;
      TopIsKnown(pos);
      ghost var s := At(pos);
      stackLen := stackLen - 1;
      var t := stack[stackLen];
      nodes[t] := nodes[t].(len := (consumed + pos - nodes[t].offset + 1) % 0x1_0000_0000);
      nodes[t] := nodes[t].(hash := U28(nodesLen - (t + 1)));
      scan := scan.(mode := AfterValue);
      assert nodes[..nodesLen] == s.nodes[t := nodes[t]];
      assert stack[..stackLen] == s.stack[..|s.stack| - 1];
      assert expectingKey[..stackLen] == s.expecting[..|s.expecting| - 1];
    }

    /** A byte where a value may start. */
    method OnValue(c: char, pos: nat)
      requires Shape() && At(pos).Parsing? && Sound(At(pos)) && scan.mode == Normal
      modifies this`nodesLen, this`stackLen, this`error, this`scan, nodes, stack, expectingKey
      ensures Shape() && At(pos + 1) == StepValue(Cfg(), old(At(pos)), c)
    {
      hide Sound, OpenContainer, Nodes, Stack, Expecting, BeginValue;
      if c == '{' || c == '[' {
        SoundPending(At(pos));
        scan := scan.(pendingValue := false);
        Open(if c == '{' then JSON_OBJECT else JSON_ARRAY, pos);
        return;
      }
      var begun := BeginValue(scan, c, consumed + pos);
      hide StepValue;
      BeginValueIs(Cfg(), At(pos), scan, c);
      if begun.None? {
        Fail(Unexpected, pos + 1);
      } else {
        scan := begun.value;
      }
    }

    method ExpectKey(expecting: bool, ghost pos: nat)
      requires Shape() && error.None? && stackLen > 0
      modifies expectingKey
      ensures Shape() && var s := old(At(pos)); At(pos) == s.(expecting := s.expecting[|s.stack| - 1 := expecting])
    {
      expectingKey[stackLen - 1] := expecting;
      assert Expecting() == old(Expecting())[stackLen - 1 := expecting];
    }

    lemma ReadExpecting(pos: nat)
      requires Shape() && error.None?
      ensures stackLen > 0 ==> expectingKey[stackLen - 1] == At(pos).expecting[stackLen - 1]
    {
    }

    /** A byte between values that is not blank. */
    method OnStructure(c: char, pos: nat)
      requires Shape() && At(pos).Parsing? && Sound(At(pos)) && (scan.mode == Normal || scan.mode == AfterValue) && !IsWhite(c)
      modifies this`nodesLen, this`stackLen, this`error, this`scan, nodes, stack, expectingKey
      ensures Shape() && At(pos + 1) == StepStructure(Cfg(), old(At(pos)), c)
    {
      hide Sound, StepValue, CloseContainer, Nodes, Stack, Expecting, IsWhite;
      TopIsKnown(pos);
      if stackLen > 0 {
        var kind := nodes[stack[stackLen - 1]].kind;
        if (c == '}' && kind == JSON_OBJECT) || (c == ']' && kind == JSON_ARRAY) {
          if scan.pendingValue {
            Fail(Unexpected, pos + 1);
          } else {
            Close(pos);
          }
          return;
        }
      }
      if scan.mode == AfterValue {
        OnComma(c, pos);
        return;
      }
      ReadExpecting(pos);
      if stackLen > 0 && expectingKey[stackLen - 1] {
        if c != '"' {
          Fail(Unexpected, pos + 1);
        } else {
          scan := scan.(mode := InString, isKey := true, pendingHash := 0, pendingOffset := consumed + pos + 1,
                        pendingLen := 0, inEscape := false);
        }
        return;
      }
      OnValue(c, pos);
    }

    method OnComma(c: char, pos: nat)
      requires Shape() && At(pos).Parsing? && Sound(At(pos)) && scan.mode == AfterValue && !IsWhite(c) && !ClosesTop(At(pos), c)
      modifies this`error, this`scan, expectingKey
      ensures Shape() && At(pos + 1) == StepStructure(Cfg(), old(At(pos)), c)
    {
      TopIsKnown(pos);
      Sizes(pos);
      ScanIs(pos);
      hide Sound, StepValue, CloseContainer, Nodes, Stack, Expecting, IsWhite, ClosesTop, At;
      if c != ',' {
        Fail(Unexpected, pos + 1);
        return;
      }
      var inObject := stackLen > 0 && nodes[stack[stackLen - 1]].kind == JSON_OBJECT;
      Remember(scan.(mode := Normal), pos);
      if inObject {
        ExpectKey(true, pos);
      }
      NextIs(pos);
    }

    method OnColon(c: char, pos: nat)
      requires Shape() && At(pos).Parsing? && Sound(At(pos)) && scan.mode == ExpectColon
      modifies this`error, this`scan, expectingKey
      ensures Shape() && At(pos + 1) == Step(Cfg(), old(At(pos)), c)
    {
      hide Nodes, Stack, Expecting;
      if c != ':' {
        Fail(Unexpected, pos + 1);
        return;
      }
      scan := scan.(mode := Normal);
      ExpectKey(false, pos);
    }

    /** One byte is read, or a number ends before it. */
    method OneByte(c: char, pos: nat) returns (read: bool)
      requires Shape() && At(pos).Parsing? && Sound(At(pos)) && (scan.mode == Normal || scan.mode == AfterValue ==> !IsWhite(c))
      modifies this`nodesLen, this`stackLen, this`error, this`scan, nodes, stack, expectingKey
      ensures Shape()
      ensures read ==> At(pos + 1) == Step(Cfg(), old(At(pos)), c)
      ensures !read ==> && old(scan.mode) == InNumber && (error.None? ==> scan.mode == AfterValue) && Sound(At(pos))
                        && Step(Cfg(), At(pos), c) == Step(Cfg(), old(At(pos)), c)
    {
      hide Sound, StepString, StepLiteral, StepStructure, EndNumber, NumberChar, Nodes, Stack, Expecting, IsWhite;
      if scan.mode == ExpectColon {
        OnColon(c, pos);
      } else if scan.mode == InLiteral {
        OnLiteral(c, pos);
      } else if scan.mode == InString {
        OnString(c, pos);
      } else if scan.mode == InNumber {
        ghost var s := At(pos);
        read := OnNumber(c, pos);
        return;
      } else {
        OnStructure(c, pos);
      }
      return true;
    }

    /** Blanks between values change nothing. */
    method SkipWhite(data: string, pos: nat) returns (r: nat)
      requires Shape() && At(pos).Parsing? && Sound(At(pos)) && (scan.mode == Normal || scan.mode == AfterValue) && pos <= |data|
      ensures pos <= r <= |data| && (r < |data| ==> !IsWhite(data[r]))
      ensures Sound(At(r)) && At(r) == CejsonSpec.Feed(Cfg(), At(pos), data[pos..r])
    {
      hide Sound, Step, IsWhite, Nodes, Stack, Expecting;
      r := pos;
      assert data[pos..pos] == "";
      while r < |data| && IsWhite(data[r])
        invariant pos <= r <= |data|
        invariant Sound(At(r)) && At(r) == CejsonSpec.Feed(Cfg(), At(pos), data[pos..r])
      {
        WhiteStep(Cfg(), At(r), data[r]);
        assert data[pos..r + 1][..r - pos] == data[pos..r];
        r := r + 1;
      }
    }

    /** One piece of the text. */
    method Feed(data: string) returns (ok: bool)
      requires Valid()
      modifies this, nodes, stack, expectingKey
      ensures Valid() && At(0) == CejsonSpec.Feed(Cfg(), old(At(0)), data)
      ensures ok <==> error.None?
    {
      hide Sound, Step, IsWhite, Nodes, Stack, Expecting, CejsonSpec.Feed, Combine;
      ghost var s := At(0);
      if error.Some? {
        FeedFailed(Cfg(), error.value, data);
        return false;
      }
      var pos := 0;
      FeedNothing(Cfg(), s);
      assert data[..0] == "";
      while pos < |data|
        invariant pos <= |data| && Shape() && error.None? && Sound(At(pos))
        invariant Agrees(Cfg(), s, data, pos, At(pos))
        decreases |data| - pos, if scan.mode == InNumber then 1 else 0
      {
        ModeIs(pos);
        if scan.mode == Normal || scan.mode == AfterValue {
          var r := SkipWhite(data, pos);
          AgreesAhead(Cfg(), s, data, pos, r, At(pos), At(r));
          pos := r;
          if pos >= |data| {
            break;
          }
        }
        ModeIs(pos);
        ghost var now := At(pos);
        var read := OneByte(data[pos], pos);
        AgreesNext(Cfg(), s, data, pos, now, At(pos), At(pos + 1), read);
        if read {
          pos := pos + 1;
        }
        if error.Some? {
          AgreesFailed(Cfg(), s, data, pos, error.value);
          return false;
        }
      }
      assert data[..|data|] == data;
      consumed := consumed + pos;
      return true;
    }

    /** The end of the input. */
    method Finish() returns (ok: bool)
      requires Valid()
      modifies this, nodes
      ensures Valid() && At(0) == CejsonSpec.Finish(Cfg(), old(At(0)))
      ensures ok <==> Accepted(At(0))
    {
      hide Nodes, Stack, Expecting, NumberComplete, InheritHash;
      if error.Some? {
        return false;
      }
      if stackLen != 0 {
        Fail(Incomplete, 0);
        return false;
      }
      if scan.mode == InNumber {
        AddNumber(0);
        return error.None?;
      }
      if scan.mode == InString || scan.mode == InLiteral {
        Fail(Incomplete, 0);
        return false;
      }
      return nodesLen > 0;
    }

    lemma ScanIs(pos: nat)
      requires Shape() && error.None?
      ensures var s := At(pos); s.Parsing? && s == Combine(s.nodes, s.stack, s.expecting, s.consumed, scan)
    {
    }

    lemma NextIs(pos: nat)
      requires Shape()
      ensures At(pos + 1) == Next(At(pos))
    {
    }

    lemma ModeIs(pos: nat)
      requires Shape() && error.None?
      ensures At(pos).Parsing? && At(pos).mode == scan.mode
    {
    }

  }

  /** After `pos` bytes the parser is where the automaton is, or will be after the next byte. */
  ghost predicate Agrees(cfg: Config, s: State, data: string, pos: nat, now: State)
    requires Sound(s) && Sound(now) && pos <= |data|
  {
    var prev := Feed(cfg, s, data[..pos]);
    if pos == |data| then now == prev else Step(cfg, now, data[pos]) == Step(cfg, prev, data[pos])
  }

  lemma {:induction false} FeedFailed(cfg: Config, e: ErrorCode, text: string)
    ensures Feed(cfg, Failed(e), text) == Failed(e)
  {
    if text != "" {
      FeedFailed(cfg, e, text[..|text| - 1]);
    }
  }

  lemma FeedMore(cfg: Config, s: State, data: string, a: nat, b: nat)
    requires Sound(s) && a <= b <= |data|
    ensures Feed(cfg, s, data[..b]) == Feed(cfg, Feed(cfg, s, data[..a]), data[a..b])
  {
    hide Feed, Sound;
    assert data[..b] == data[..a] + data[a..b];
    FeedSplit(cfg, s, data[..a], data[a..b]);
  }

  lemma FeedFrom(cfg: Config, s: State, data: string, a: nat, b: nat)
    requires Sound(s) && a < b <= |data|
    ensures Feed(cfg, s, data[a..b]) == Feed(cfg, Step(cfg, s, data[a]), data[a + 1..b])
  {
    hide Feed, Step, Sound;
    assert data[a..b] == [data[a]] + data[a + 1..b];
    FeedCons(cfg, s, data[a], data[a + 1..b]);
  }

  lemma AgreesAhead(cfg: Config, s: State, data: string, pos: nat, r: nat, now: State, after: State)
    requires Sound(s) && Sound(now) && pos <= r <= |data| && pos < |data| && Agrees(cfg, s, data, pos, now)
    requires after == Feed(cfg, now, data[pos..r])
    ensures Agrees(cfg, s, data, r, after)
  {
    hide Feed, Step, Sound;
    if r == pos {
      assert data[pos..r] == "";
      FeedNothing(cfg, now);
    } else {
      var prev := Feed(cfg, s, data[..pos]);
      FeedFrom(cfg, now, data, pos, r);
      FeedFrom(cfg, prev, data, pos, r);
      FeedMore(cfg, s, data, pos, r);
    }
  }

  lemma AgreesNext(cfg: Config, s: State, data: string, pos: nat, now: State, at: State, next: State, read: bool)
    requires Sound(s) && Sound(now) && pos < |data| && Agrees(cfg, s, data, pos, now)
    requires read ==> next == Step(cfg, now, data[pos])
    requires !read ==> Sound(at) && Step(cfg, at, data[pos]) == Step(cfg, now, data[pos])
    ensures if read then Sound(next) && Agrees(cfg, s, data, pos + 1, next) else Agrees(cfg, s, data, pos, at)
  {
    hide Feed, Step, Sound;
    FeedMore(cfg, s, data, pos, pos + 1);
    assert data[pos..pos + 1] == [data[pos]];
    FeedOne(cfg, Feed(cfg, s, data[..pos]), data[pos]);
  }

  lemma AgreesFailed(cfg: Config, s: State, data: string, pos: nat, e: ErrorCode)
    requires Sound(s) && pos <= |data| && Agrees(cfg, s, data, pos, Failed(e))
    ensures Feed(cfg, s, data) == Failed(e)
  {
    hide Feed, Sound;
    assert data[..|data|] == data;
    if pos < |data| {
      FeedMore(cfg, s, data, pos, pos + 1);
      assert data[pos..pos + 1] == [data[pos]];
      FeedOne(cfg, Feed(cfg, s, data[..pos]), data[pos]);
      FeedMore(cfg, s, data, pos + 1, |data|);
      FeedFailed(cfg, e, data[pos + 1..|data|]);
    }
  }

  lemma WhiteStep(cfg: Config, s: State, c: char)
    requires s.Parsing? && Sound(s) && (s.mode == Normal || s.mode == AfterValue) && IsWhite(c)
    ensures Step(cfg, s, c) == s.(consumed := s.consumed + 1)
  {
  }
}
