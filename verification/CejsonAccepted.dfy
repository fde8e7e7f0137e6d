/** The streaming JSON parser accepts exactly the texts of its language, and the array is that of the text. */
module CejsonAccepted {
  import opened Text
  import opened CejsonSpec
  import opened CejsonText
  import opened CejsonGrammar
  import opened CejsonScan
  import opened CejsonNumber

  /** What is open around the items being read: nothing, or a container, whose node follows those of `base`. */
  datatype Frame = TopLevel | In(base: seq<JsonNode>, stack: seq<nat>, expecting: seq<bool>, kind: JsonType, offset: nat)

  predicate Keyed(fr: Frame) { fr.In? && fr.kind == JSON_OBJECT }

  function Before(fr: Frame, count: nat): seq<JsonNode> {
    if fr.In? then fr.base + [JsonNode(fr.kind, 0, U32(fr.offset), 0, count, None)] else []
  }

  function StackOf(fr: Frame): seq<nat> { if fr.In? then fr.stack + [|fr.base|] else [] }

  function ExpectingOf(fr: Frame, key: bool): seq<bool> { if fr.In? then fr.expecting + [key] else [] }

  /** So many items have been read, and these are their nodes. */
  ghost predicate Open(fr: Frame, t: State, count: nat, below: seq<JsonNode>) {
    && Ready(t) && !t.pendingValue && BetweenTokens(t) && (fr.In? ==> IsContainer(fr.kind))
    && t.nodes == Before(fr, count) + below && t.stack == StackOf(fr)
    && |t.expecting| == |StackOf(fr)| && (fr.In? ==> |fr.expecting| + 1 == |t.expecting| && t.expecting[..|fr.expecting|] == fr.expecting)
  }

  /** Behind the last item, or in front of all of them. */
  ghost predicate Behind(fr: Frame, t: State, count: nat, below: seq<JsonNode>) {
    Open(fr, t, count, below) && t.mode == (if count == 0 then Normal else AfterValue) && t.expecting == ExpectingOf(fr, Keyed(fr) && count == 0)
  }

  /** Where the next item may begin. */
  ghost predicate AtNext(fr: Frame, t: State, count: nat, below: seq<JsonNode>) {
    Open(fr, t, count, below) && t.mode == Normal && t.expecting == ExpectingOf(fr, Keyed(fr))
  }

  // ---------------------------------------------------------------------
  // Tokens of the text

  lemma StringValueFed(cfg: Config, b: string, i: nat, j: nat)
    requires StringForm(b, i, j) && AcceptsValue(At(cfg, b, i)) && |At(cfg, b, i).nodes| < cfg.nodesCap
    ensures var s := At(cfg, b, i);
            After(s, At(cfg, b, j), CountChild(s.nodes + [JsonNode(JSON_STRING, 0, U32(i + 1), U32(j - i - 2), 0, None)], s.stack), j - i)
  {
    hide At, Sound, Step, StringBytes, AddString, CountChild;
    var s := At(cfg, b, i);
    OneStep(cfg, b, i);
    StringBegins(cfg, s);
    StringFed(cfg, b, i + 1, j - 1);
    var w := At(cfg, b, j - 1);
    OneStep(cfg, b, j - 1);
    EndString(cfg, w);
    ConsumedIs(cfg, b, i);
    StringAfter(cfg, s, w);
  }

  lemma StringBegins(cfg: Config, s: State)
    requires AcceptsValue(s)
    ensures Step(cfg, s, '"') == Next(BeginString(s.(pendingValue := false), false)) && Plain(Step(cfg, s, '"'))
  {
    hide Step;
    BeginsValue(cfg, s, '"');
  }

  /** A key up to behind its colon. */
  lemma KeyFed(cfg: Config, b: string, i: nat, j: nat) returns (key: JsonNode)
    requires StringForm(b, i, j) && j < |b| && b[j] == ':'
    requires var s := At(cfg, b, i); Ready(s) && |s.nodes| < cfg.nodesCap && s.mode == Normal && s.stack != [] && s.expecting[|s.stack| - 1]
    ensures var s, t := At(cfg, b, i), At(cfg, b, j + 1);
            && AcceptsValue(t) && t.nodes == s.nodes + [key] && t.stack == s.stack && t.expecting == s.expecting[|s.stack| - 1 := false]
            && t.pendingValue
    ensures Marked(key, StringMark(i, j))
  {
    hide At, Sound, Step, StringBytes, AddString, CountChild;
    var s := At(cfg, b, i);
    ReadyStack(s);
    OneStep(cfg, b, i);
    SoundBegin(s);
    BeginsKey(cfg, s);
    StringFed(cfg, b, i + 1, j - 1);
    var w := At(cfg, b, j - 1);
    OneStep(cfg, b, j - 1);
    EndString(cfg, w);
    ConsumedIs(cfg, b, i);
    KeyAdded(cfg, s, w);
    KeyPending(cfg, w);
    OneStep(cfg, b, j);
    ReadColon(cfg, At(cfg, b, j));
    key := JsonNode(JSON_STRING, U28(w.pendingHash), U32(w.pendingOffset), U32(w.pendingLen), 0, None);
  }

  lemma KeyPending(cfg: Config, w: State)
    requires Plain(w) && w.isKey
    ensures var x := Next(AddString(cfg, w));
            && (x.Parsing? <==> |w.nodes| < cfg.nodesCap)
            && (x.Parsing? ==> x.pendingValue && x.mode == ExpectColon && x.stack == w.stack)
  {
    hide Sound;
  }

  lemma ReadyStack(s: State)
    requires Ready(s)
    ensures |s.expecting| == |s.stack|
  {
  }

  lemma NumberValueFed(cfg: Config, b: string, i: nat, j: nat, p: NumParts, kind: JsonType)
    requires i < j <= |b| && AcceptsValue(At(cfg, b, i)) && |At(cfg, b, i).nodes| < cfg.nodesCap && NumberForm(b[i..j], p, kind)
    ensures var s := At(cfg, b, i);
            After(s, Settled(cfg, b, j), CountChild(s.nodes + [JsonNode(kind, Inherited(s), U32(i), U32(j - i), 0, None)], s.stack), j - i)
  {
    hide At, Sound, Step, CountChild, After, NumComplete, Joined, Inherited, Numbering, Settle;
    assert b[i..j] == Joined(p)[..j - i];
    NumberFed(cfg, b, i, j, p);
    TakeAll(p);
    ConsumedIs(cfg, b, i);
    NumberAdded(cfg, At(cfg, b, i), At(cfg, b, j), b[i..j], p, kind);
  }

  lemma LiteralValueFed(cfg: Config, b: string, i: nat, j: nat, kind: JsonType)
    requires i < j <= |b| && AcceptsValue(At(cfg, b, i)) && |At(cfg, b, i).nodes| < cfg.nodesCap
    requires kind in {JSON_TRUE, JSON_FALSE, JSON_NULL} && b[i..j] == LiteralText(kind)
    ensures var s := At(cfg, b, i);
            After(s, At(cfg, b, j), CountChild(s.nodes + [JsonNode(kind, Inherited(s), U32(i), j - i, 0, None)], s.stack), j - i)
  {
    hide At, Sound, Step, CountChild, After, Inherited, Feed;
    Fed(cfg, b, i, j);
    ConsumedIs(cfg, b, i);
    ParseLiteral(cfg, At(cfg, b, i), kind);
  }

  /** A value without parts. */
  lemma LeafFed(cfg: Config, b: string, t: Tree) returns (added: seq<JsonNode>)
    requires Form(b, t) && !IsContainer(t.kind) && AcceptsValue(At(cfg, b, t.start)) && |At(cfg, b, t.start).nodes| < cfg.nodesCap
    ensures var s := At(cfg, b, t.start);
            After(s, Settled(cfg, b, t.end), CountChild(s.nodes + added, s.stack), t.end - t.start)
    ensures AllMarked(added, Marks(t))
  {
    hide At, Sound, Step, StringForm, CountChild, After, NumberForm, Inherited, Settle;
    var i, j := t.start, t.end;
    var s := At(cfg, b, i);
    TopInRange(s);
    if t.kind == JSON_STRING {
      StringLonger(b, i, j);
      StringValueFed(cfg, b, i, j);
      added := [JsonNode(JSON_STRING, 0, U32(i + 1), U32(j - i - 2), 0, None)];
      AfterSettled(cfg, s, At(cfg, b, j), CountChild(s.nodes + added, s.stack), j - i);
    } else if t.kind == JSON_NUMBER_INT || t.kind == JSON_NUMBER_FLOAT {
      var p :| NumberForm(b[i..j], p, t.kind);
      NumberValueFed(cfg, b, i, j, p, t.kind);
      added := [JsonNode(t.kind, Inherited(s), U32(i), U32(j - i), 0, None)];
    } else {
      LiteralValueFed(cfg, b, i, j, t.kind);
      added := [JsonNode(t.kind, Inherited(s), U32(i), j - i, 0, None)];
      AfterSettled(cfg, s, At(cfg, b, j), CountChild(s.nodes + added, s.stack), j - i);
    }
  }

  lemma StringLonger(b: string, i: nat, j: nat)
    requires StringForm(b, i, j)
    ensures i + 2 <= j
  {
  }

  lemma AfterSettled(cfg: Config, s: State, t: State, nodes: seq<JsonNode>, len: nat)
    requires s.Parsing? && Sound(t) && After(s, t, nodes, len)
    ensures Settle(cfg, t) == t
  {
  }

  // ---------------------------------------------------------------------
  // Items

  lemma OpenMoves(fr: Frame, t: State, n: nat, count: nat, below: seq<JsonNode>)
    requires t.Parsing?
    ensures Behind(fr, t, count, below) ==> Behind(fr, t.(consumed := t.consumed + n), count, below)
    ensures AtNext(fr, t, count, below) ==> AtNext(fr, t.(consumed := t.consumed + n), count, below)
  {
  }

  lemma BehindBetween(fr: Frame, t: State, count: nat, below: seq<JsonNode>)
    requires Behind(fr, t, count, below) || AtNext(fr, t, count, below)
    ensures BetweenTokens(t) && Sound(t)
  {
  }

  lemma GapBehind(cfg: Config, b: string, i: nat, j: nat, fr: Frame, count: nat, below: seq<JsonNode>)
    requires Gap(b, i, j) && Behind(fr, Settled(cfg, b, i), count, below)
    ensures Behind(fr, Settled(cfg, b, j), count, below)
  {
    hide Settled, Behind, Open, BetweenTokens, Gap, Sound, At;
    GapWithin(b, i, j);
    BehindBetween(fr, Settled(cfg, b, i), count, below);
    GapFed(cfg, b, i, j);
    OpenMoves(fr, Settled(cfg, b, i), j - i, count, below);
  }

  lemma GapNext(cfg: Config, b: string, i: nat, j: nat, fr: Frame, count: nat, below: seq<JsonNode>)
    requires Gap(b, i, j) && AtNext(fr, At(cfg, b, i), count, below)
    ensures AtNext(fr, At(cfg, b, j), count, below)
  {
    hide At, AtNext, Open;
    BehindBetween(fr, At(cfg, b, i), count, below);
    SettleNothing(cfg, At(cfg, b, i));
    GapFed(cfg, b, i, j);
    OpenMoves(fr, At(cfg, b, i), j - i, count, below);
  }

  lemma CommaAt(cfg: Config, b: string, k: nat, fr: Frame, count: nat, below: seq<JsonNode>)
    requires k < |b| && b[k] == ',' && count > 0 && Behind(fr, Settled(cfg, b, k), count, below)
    ensures AtNext(fr, At(cfg, b, k + 1), count, below)
  {
    hide At, Sound, Settle, Step;
    OneStep(cfg, b, k);
    BehindBetween(fr, Settled(cfg, b, k), count, below);
    SettledStep(cfg, At(cfg, b, k), ',');
    CommaIs(cfg, Settled(cfg, b, k), fr, count, below);
  }

  lemma CommaIs(cfg: Config, t: State, fr: Frame, count: nat, below: seq<JsonNode>)
    requires count > 0 && Behind(fr, t, count, below)
    ensures AtNext(fr, Step(cfg, t, ','), count, below)
  {
    TopIsFrame(fr, t, count, below);
    CommaTaken(cfg, t);
  }

  lemma CommaTaken(cfg: Config, t: State)
    requires t.Parsing? && Sound(t) && t.mode == AfterValue
    ensures Step(cfg, t, ',') ==
            Next(t.(mode := Normal, expecting := if t.stack != [] && t.nodes[Top(t)].kind == JSON_OBJECT then t.expecting[|t.stack| - 1 := true] else t.expecting))
  {
  }

  lemma TopIsFrame(fr: Frame, t: State, count: nat, below: seq<JsonNode>)
    requires Open(fr, t, count, below)
    ensures fr.In? ==> t.stack != [] && Top(t) == |fr.base| < |t.nodes| && t.nodes[Top(t)].kind == fr.kind
    ensures fr.TopLevel? ==> t.stack == []
  {
  }

  lemma CommaNext(cfg: Config, b: string, i: nat, j: nat, fr: Frame, count: nat, below: seq<JsonNode>)
    requires Comma(b, i, j) && count > 0 && Behind(fr, Settled(cfg, b, i), count, below)
    ensures j <= |b| && AtNext(fr, At(cfg, b, j), count, below)
  {
    hide At, Behind, AtNext;
    var k :| Gap(b, i, k) && k < |b| && b[k] == ',' && Gap(b, k + 1, j);
    GapBehind(cfg, b, i, k, fr, count, below);
    CommaAt(cfg, b, k, fr, count, below);
    GapNext(cfg, b, k + 1, j, fr, count, below);
  }

  lemma FirstNext(cfg: Config, b: string, i: nat, fr: Frame, below: seq<JsonNode>)
    requires i <= |b| && Behind(fr, Settled(cfg, b, i), 0, below)
    ensures AtNext(fr, At(cfg, b, i), 0, below)
  {
    SettledNormal(cfg, At(cfg, b, i));
  }

  lemma SettledNormal(cfg: Config, s: State)
    requires Sound(s) && Settle(cfg, s).Parsing? && Settle(cfg, s).mode == Normal
    ensures Settle(cfg, s) == s
  {
  }

  lemma LeadFed(cfg: Config, b: string, i: nat, first: nat, init: Trees, fr: Frame, below: seq<JsonNode>)
    requires i <= |b| && Leads(b, i, init, first) && Behind(fr, Settled(cfg, b, i), CountTrees(init), below)
    ensures first <= |b| && AtNext(fr, At(cfg, b, first), CountTrees(init), below)
  {
    hide At, Behind, AtNext, Gap, Comma;
    if init.NoTrees? {
      FirstNext(cfg, b, i, fr, below);
      GapWithin(b, i, first);
      GapNext(cfg, b, i, first, fr, 0, below);
    } else {
      CommaNext(cfg, b, i, first, fr, CountTrees(init), below);
    }
  }

  lemma GapWithin(b: string, i: int, j: int)
    requires Gap(b, i, j)
    ensures 0 <= i <= j <= |b|
  {
  }

  /** A value in its place: one child and its nodes more. */
  lemma ItemAdded(fr: Frame, u: State, v: State, count: nat, rest: seq<JsonNode>, added: seq<JsonNode>, len: nat)
    requires Ready(u) && (fr.In? ==> IsContainer(fr.kind)) && u.nodes == Before(fr, count) + rest && u.stack == StackOf(fr) && u.expecting == ExpectingOf(fr, false)
    requires After(u, v, CountChild(u.nodes + added, u.stack), len)
    ensures Behind(fr, v, count + 1, rest + added)
  {
    hide Sound;
    ReadyStack(u);
    if fr.In? {
      assert v.expecting == fr.expecting + [false] && v.expecting[..|fr.expecting|] == fr.expecting;
      var head := JsonNode(fr.kind, 0, U32(fr.offset), 0, count, None);
      assert u.nodes + added == fr.base + [head] + (rest + added);
      CountInside(fr.base, head, rest + added, u.stack);
    } else {
      assert u.nodes + added == rest + added;
      assert v.nodes == rest + added;
    }
  }

  /** Behind a key and its colon. */
  lemma NextKey(cfg: Config, b: string, first: nat, keyEnd: nat, fr: Frame, count: nat, below: seq<JsonNode>) returns (key: JsonNode)
    requires Keyed(fr) && first <= |b| && AtNext(fr, At(cfg, b, first), count, below) && |At(cfg, b, first).nodes| < cfg.nodesCap
    requires StringForm(b, first, keyEnd) && keyEnd < |b| && b[keyEnd] == ':'
    ensures Marked(key, StringMark(first, keyEnd))
    ensures AtValue(fr, At(cfg, b, keyEnd + 1), count, below + [key]) && At(cfg, b, keyEnd + 1).pendingValue
  {
    hide At, StringForm, Sound, Marked;
    key := KeyFed(cfg, b, first, keyEnd);
    var s, t := At(cfg, b, first), At(cfg, b, keyEnd + 1);
    assert t.nodes == Before(fr, count) + (below + [key]);
    assert t.expecting == fr.expecting + [false];
  }

  /** Where a value begins. */
  ghost predicate AtValue(fr: Frame, t: State, count: nat, rest: seq<JsonNode>) {
    && AcceptsValue(t) && (fr.In? ==> IsContainer(fr.kind))
    && t.nodes == Before(fr, count) + rest && t.stack == StackOf(fr) && t.expecting == ExpectingOf(fr, false)
  }

  lemma GapAtValue(cfg: Config, b: string, i: nat, j: nat, fr: Frame, count: nat, rest: seq<JsonNode>)
    requires Gap(b, i, j) && AtValue(fr, At(cfg, b, i), count, rest)
    ensures AtValue(fr, At(cfg, b, j), count, rest)
    ensures At(cfg, b, j).pendingValue == At(cfg, b, i).pendingValue
  {
    hide At;
    SettleNothing(cfg, At(cfg, b, i));
    GapFed(cfg, b, i, j);
    ValueMoves(At(cfg, b, i), j - i);
  }

  lemma ValueMoves(t: State, n: nat)
    requires AcceptsValue(t)
    ensures AcceptsValue(t.(consumed := t.consumed + n))
  {
  }

  lemma NextIsValue(fr: Frame, t: State, count: nat, below: seq<JsonNode>)
    requires !Keyed(fr) && AtNext(fr, t, count, below)
    ensures AtValue(fr, t, count, below)
  {
  }

  lemma BeforeLength(fr: Frame, count: nat)
    ensures |Before(fr, count)| == |StackBase(fr)|
  {
  }

  function StackBase(fr: Frame): seq<JsonNode> { if fr.In? then fr.base + [JsonNode(fr.kind, 0, 0, 0, 0, None)] else [] }

  /** Items in their places. */
  lemma {:induction false} ItemsFed(cfg: Config, b: string, i: nat, items: Trees, fr: Frame) returns (below: seq<JsonNode>)
    requires i <= |b| && Listed(b, i, items, Keyed(fr)) && Behind(fr, Settled(cfg, b, i), 0, [])
    requires |StackBase(fr)| + |MarksOf(items, Keyed(fr))| <= cfg.nodesCap && |StackOf(fr)| + HeightOf(items) <= cfg.stackCap
    ensures EndOf(i, items) <= |b| && Behind(fr, Settled(cfg, b, EndOf(i, items)), CountTrees(items), below)
    ensures AllMarked(below, MarksOf(items, Keyed(fr)))
    decreases items, 0
  {
    hide At, Settled, Behind, AtNext, AtValue, Form, Gap, StringForm, Leads, Marked, AllMarked, Marks, Before, StackBase, Height, StackOf;
    match items {
      case NoTrees =>
        below := [];
        NoneMarked();
      case MoreTrees(init, keyStart, keyEnd, value) =>
        var before := ItemsFed(cfg, b, i, init, fr);
        var count, first := CountTrees(init), if Keyed(fr) then keyStart else value.start;
        LeadFed(cfg, b, EndOf(i, init), first, init, fr, before);
        var rest := before;
        MarkedLength(before, MarksOf(init, Keyed(fr)));
        NodesAtNext(fr, At(cfg, b, first), count, before);
        if Keyed(fr) {
          var key := NextKey(cfg, b, first, keyEnd, fr, count, before);
          GapWithin(b, keyEnd + 1, value.start);
          GapAtValue(cfg, b, keyEnd + 1, value.start, fr, count, before + [key]);
          rest := before + [key];
          OneMarked(key, StringMark(keyStart, keyEnd));
          MarkedConcat(before, [key], MarksOf(init, true), [StringMark(keyStart, keyEnd)]);
        } else {
          NextIsValue(fr, At(cfg, b, first), count, before);
        }
        var u := At(cfg, b, value.start);
        NodesAtValue(fr, u, count, rest);
        FormWithin(b, value);
        var added := ValueFed(cfg, b, value);
        ItemAddedAt(fr, u, Settled(cfg, b, value.end), count, rest, added, value.end - value.start);
        below := rest + added;
        var m := MarksOf(init, Keyed(fr)) + if Keyed(fr) then [StringMark(keyStart, keyEnd)] else [];
        assert Keyed(fr) || m == MarksOf(init, Keyed(fr));
        MarkedConcat(rest, added, m, Marks(value));
        assert MarksOf(items, Keyed(fr)) == m + Marks(value);
    }
  }

  lemma ItemAddedAt(fr: Frame, u: State, v: State, count: nat, rest: seq<JsonNode>, added: seq<JsonNode>, len: nat)
    requires AtValue(fr, u, count, rest)
    requires After(u, v, CountChild(u.nodes + added, u.stack), len)
    ensures Behind(fr, v, count + 1, rest + added)
  {
    hide Behind, CountChild, After;
    ItemAdded(fr, u, v, count, rest, added, len);
  }

  lemma FormWithin(b: string, t: Tree)
    requires Form(b, t)
    ensures t.start < t.end <= |b|
  {
  }

  lemma NoneMarked()
    ensures AllMarked([], [])
  {
  }

  lemma OneMarked(node: JsonNode, m: Mark)
    requires Marked(node, m)
    ensures AllMarked([node], [m])
  {
  }

  lemma MarkedLength(nodes: seq<JsonNode>, marks: seq<Mark>)
    requires AllMarked(nodes, marks)
    ensures |nodes| == |marks|
  {
  }

  lemma NodesAtNext(fr: Frame, t: State, count: nat, below: seq<JsonNode>)
    requires AtNext(fr, t, count, below)
    ensures t.Parsing? && |t.nodes| == |StackBase(fr)| + |below| && t.stack == StackOf(fr)
  {
  }

  lemma NodesAtValue(fr: Frame, t: State, count: nat, rest: seq<JsonNode>)
    requires AtValue(fr, t, count, rest)
    ensures AcceptsValue(t) && |t.nodes| == |StackBase(fr)| + |rest| && t.stack == StackOf(fr)
  {
  }

  // ---------------------------------------------------------------------
  // Containers

  lemma OpenFed(cfg: Config, b: string, i: nat, kind: JsonType) returns (fr: Frame)
    requires i < |b| && AcceptsValue(At(cfg, b, i)) && IsContainer(kind) && b[i] == if kind == JSON_OBJECT then '{' else '['
    requires var s := At(cfg, b, i); |s.nodes| < cfg.nodesCap && |s.stack| < cfg.stackCap
    ensures var s := At(cfg, b, i);
            fr == In(CountChild(s.nodes, s.stack), s.stack, s.expecting, kind, i) && Behind(fr, At(cfg, b, i + 1), 0, []) && |fr.base| == |s.nodes|
    ensures Settled(cfg, b, i + 1) == At(cfg, b, i + 1)
  {
    hide At, Sound, Step, CountChild, StepValue;
    var s := At(cfg, b, i);
    TopInRange(s);
    OneStep(cfg, b, i);
    BeginsValue(cfg, s, b[i]);
    OpenStep(cfg, s, kind, b[i]);
    ConsumedIs(cfg, b, i);
    fr := In(CountChild(s.nodes, s.stack), s.stack, s.expecting, kind, i);
    InsideBehind(cfg, s, At(cfg, b, i + 1), fr);
    SettleNothing(cfg, At(cfg, b, i + 1));
  }

  lemma InsideBehind(cfg: Config, s: State, t: State, fr: Frame)
    requires s.Parsing? && Sound(s) && fr.In? && IsContainer(fr.kind) && fr.stack == s.stack && fr.expecting == s.expecting
    requires Inside(cfg, s, t, fr.base, fr.kind, fr.offset, None_)
    ensures Behind(fr, t, 0, [])
  {
    assert t.nodes == Before(fr, 0) + [];
    assert t.expecting[..|fr.expecting|] == fr.expecting;
  }

  /** The closing bracket: the node of the container gets its length and its span. */
  lemma CloseFed(cfg: Config, b: string, s: State, j: nat, fr: Frame, count: nat, below: seq<JsonNode>)
    requires j < |b| && Ready(s) && fr.In? && s.consumed == fr.offset <= j
    requires fr.base == CountChild(s.nodes, s.stack) && fr.stack == s.stack && fr.expecting == s.expecting
    requires Open(fr, Settled(cfg, b, j), count, below) && b[j] == (if fr.kind == JSON_OBJECT then '}' else ']')
    ensures var len := j + 1 - fr.offset; var nodes := ContainerNodes(fr.kind, fr.offset, len, count, below);
            After(s, At(cfg, b, j + 1), CountChild(s.nodes + nodes, s.stack), len)
  {
    hide At, Settled, Sound, Step, CountChild, CloseContainer;
    OneStep(cfg, b, j);
    SettledCloses(cfg, b, j);
    var t := Settled(cfg, b, j);
    SettledConsumed(cfg, b, j);
    TopIsFrame(fr, t, count, below);
    CloseStepIs(cfg, t, b[j]);
    var head := JsonNode(fr.kind, 0, U32(fr.offset), 0, count, None);
    assert t.expecting == s.expecting + [t.expecting[|t.expecting| - 1]];
    ClosedNodes(s, t, fr.base, head, below, j + 1 - fr.offset);
    ClosedAfter(s, t, fr.base + ContainerNodes(fr.kind, fr.offset, j + 1 - fr.offset, count, below), j + 1 - fr.offset);
    TopInRange(s);
    CountChildAppend(s.nodes, s.stack, ContainerNodes(fr.kind, fr.offset, j + 1 - fr.offset, count, below));
  }

  lemma SettledCloses(cfg: Config, b: string, j: nat)
    requires j < |b| && Settled(cfg, b, j).Parsing? && b[j] in "]}"
    ensures Step(cfg, At(cfg, b, j), b[j]) == Step(cfg, Settled(cfg, b, j), b[j])
  {
    hide At, Step, Settle, Sound;
    SettledStep(cfg, At(cfg, b, j), b[j]);
  }

  lemma SettledConsumed(cfg: Config, b: string, j: nat)
    requires j <= |b|
    ensures Settled(cfg, b, j).Parsing? ==> Settled(cfg, b, j).consumed == j
  {
    hide At, Sound;
    ConsumedIs(cfg, b, j);
    var s := At(cfg, b, j);
    if s.Parsing? && s.mode == InNumber {
      AddedStays(cfg, s, JsonNode(if s.num.hasDot || s.num.hasExp then JSON_NUMBER_FLOAT else JSON_NUMBER_INT,
                                  0, U32(s.pendingOffset), U32(s.pendingLen), 0, None));
    }
  }

  lemma ContainerMarked(t: Tree, below: seq<JsonNode>)
    requires IsContainer(t.kind) && t.start <= t.end && AllMarked(below, MarksOf(t.items, t.kind == JSON_OBJECT))
    ensures AllMarked(ContainerNodes(t.kind, t.start, t.end - t.start, CountTrees(t.items), below), Marks(t))
  {
    hide AllMarked, MarksOf;
    MarkedLength(below, MarksOf(t.items, t.kind == JSON_OBJECT));
    var node := JsonNode(t.kind, U28(|below|), U32(t.start), (t.end - U32(t.start)) % 0x1_0000_0000, CountTrees(t.items), None);
    var mark := Mark(t.kind, t.start, t.end - t.start, CountTrees(t.items), |below|);
    SameRemainder(t.start, t.end);
    OneMarked(node, mark);
    MarkedConcat([node], below, [mark], MarksOf(t.items, t.kind == JSON_OBJECT));
  }

  lemma SameRemainder(a: nat, c: nat)
    ensures (c - a % 0x1_0000_0000) % 0x1_0000_0000 == (c - a) % 0x1_0000_0000
  {
    var q := a / 0x1_0000_0000;
    assert c - a % 0x1_0000_0000 == c - a + q * 0x1_0000_0000;
  }

  /** What stands before the closing bracket. */
  lemma RestFed(cfg: Config, b: string, e: nat, j: nat, fr: Frame, count: nat, below: seq<JsonNode>)
    requires e <= |b| && Behind(fr, Settled(cfg, b, e), count, below) && (Gap(b, e, j) || (count > 0 && Comma(b, e, j)))
    ensures j <= |b| && Open(fr, Settled(cfg, b, j), count, below)
    ensures count > 0 ==> Settled(cfg, b, j).mode in {Normal, AfterValue}
  {
    hide At, Gap, Comma;
    if Gap(b, e, j) {
      GapWithin(b, e, j);
      GapBehind(cfg, b, e, j, fr, count, below);
    } else {
      CommaNext(cfg, b, e, j, fr, count, below);
      SettleNothing(cfg, At(cfg, b, j));
    }
  }

  /** The text of a value adds its nodes, and one child to the open container. */
  lemma {:induction false} ValueFed(cfg: Config, b: string, t: Tree) returns (added: seq<JsonNode>)
    requires Form(b, t) && t.start < t.end <= |b| && AcceptsValue(At(cfg, b, t.start))
    requires |At(cfg, b, t.start).nodes| + |Marks(t)| <= cfg.nodesCap && |At(cfg, b, t.start).stack| + Height(t) <= cfg.stackCap
    ensures var s := At(cfg, b, t.start);
            After(s, Settled(cfg, b, t.end), CountChild(s.nodes + added, s.stack), t.end - t.start)
    ensures AllMarked(added, Marks(t))
    ensures IsContainer(t.kind) ==> Settled(cfg, b, t.end) == At(cfg, b, t.end)
    decreases t, 1
  {
    hide At, Sound, Step, CountChild, After, Behind, Open, Listed, AllMarked, Gap, Comma;
    if IsContainer(t.kind) {
      var s := At(cfg, b, t.start);
      FormBrackets(b, t);
      MarksLength(t);
      TopInRange(s);
      var fr := OpenFed(cfg, b, t.start, t.kind);
      var below := ItemsFed(cfg, b, t.start + 1, t.items, fr);
      CountPositive(t.items);
      RestFed(cfg, b, EndOf(t.start + 1, t.items), t.end - 1, fr, CountTrees(t.items), below);
      ConsumedIs(cfg, b, t.start);
      CloseFed(cfg, b, s, t.end - 1, fr, CountTrees(t.items), below);
      added := ContainerNodes(t.kind, t.start, t.end - t.start, CountTrees(t.items), below);
      AfterSettled(cfg, s, At(cfg, b, t.end), CountChild(s.nodes + added, s.stack), t.end - t.start);
      ContainerMarked(t, below);
    } else {
      added := LeafFed(cfg, b, t);
    }
  }

  lemma FormBrackets(b: string, t: Tree)
    requires Form(b, t) && IsContainer(t.kind)
    ensures t.start + 2 <= t.end <= |b|
    ensures b[t.start] == if t.kind == JSON_OBJECT then '{' else '['
    ensures b[t.end - 1] == if t.kind == JSON_OBJECT then '}' else ']'
    ensures Within(b, t.start + 1, t.items, t.kind == JSON_OBJECT, t.end - 1)
  {
  }

  lemma MarksLength(t: Tree)
    requires IsContainer(t.kind)
    ensures |Marks(t)| == 1 + |MarksOf(t.items, t.kind == JSON_OBJECT)| && Height(t) == 1 + HeightOf(t.items)
  {
  }

  lemma CountPositive(items: Trees)
    ensures items.MoreTrees? <==> CountTrees(items) > 0
  {
  }

  // ---------------------------------------------------------------------
  // Texts

  lemma SettleStack(cfg: Config, s: State)
    requires Sound(s) && Settle(cfg, s).Parsing?
    ensures s.Parsing? && Settle(cfg, s).stack == s.stack
  {
    hide CountChild, InheritHash, Sound, NumberComplete;
  }

  /** The end of a text outside of everything. */
  lemma FinishSettled(cfg: Config, s: State)
    requires Sound(s) && BetweenTokens(Settle(cfg, s)) && Settle(cfg, s).stack == []
    ensures Finish(cfg, s) == Settle(cfg, s)
  {
    hide Sound, AddScalar, NumberComplete;
    SettleStack(cfg, s);
  }

  lemma InitialOpen(cfg: Config, b: string)
    ensures Behind(TopLevel, Settled(cfg, b, 0), 0, [])
  {
    hide At;
    Start(cfg, b);
  }

  lemma TopOpen(t: State, count: nat, below: seq<JsonNode>)
    requires Open(TopLevel, t, count, below)
    ensures BetweenTokens(t) && t.stack == [] && t.nodes == below
  {
  }

  lemma TopCaps()
    ensures |StackBase(TopLevel)| == 0 && |StackOf(TopLevel)| == 0 && !Keyed(TopLevel)
  {
  }

  lemma DocumentParts(b: string, items: Trees)
    requires Document(b, items)
    ensures CountTrees(items) > 0 && Listed(b, 0, items, false)
    ensures Gap(b, EndOf(0, items), |b|) || Comma(b, EndOf(0, items), |b|)
  {
    hide Listed, Gap, Comma;
  }

  lemma MarksNonempty(items: Trees, keyed: bool)
    requires CountTrees(items) > 0
    ensures MarksOf(items, keyed) != []
  {
  }

  /** A text of the language that fits is accepted, and the array is that of the text. */
  lemma DocumentAccepted(cfg: Config, b: string, items: Trees)
    requires Document(b, items) && |MarksOf(items, false)| <= cfg.nodesCap && HeightOf(items) <= cfg.stackCap
    ensures var s := Finish(cfg, Feed(cfg, INITIAL, b)); Accepted(s) && AllMarked(s.nodes, MarksOf(items, false))
  {
    hide At, Settled, Feed, Finish, Sound, AllMarked, Listed, Gap, Comma, Document, MarksOf, HeightOf, Behind, Open, StackBase, StackOf, Keyed, BetweenTokens;
    DocumentParts(b, items);
    InitialOpen(cfg, b);
    TopCaps();
    var below := ItemsFed(cfg, b, 0, items, TopLevel);
    RestFed(cfg, b, EndOf(0, items), |b|, TopLevel, CountTrees(items), below);
    TopOpen(Settled(cfg, b, |b|), CountTrees(items), below);
    EndAccepted(cfg, b);
    MarkedLength(below, MarksOf(items, false));
    MarksNonempty(items, false);
  }

  lemma EndAccepted(cfg: Config, b: string)
    requires BetweenTokens(Settled(cfg, b, |b|)) && Settled(cfg, b, |b|).stack == []
    ensures Finish(cfg, Feed(cfg, INITIAL, b)) == Settled(cfg, b, |b|) && Settled(cfg, b, |b|).Parsing?
  {
    hide At, Sound, Settle, Finish;
    AtEnd(cfg, b);
    FinishSettled(cfg, At(cfg, b, |b|));
  }

  lemma AtEnd(cfg: Config, b: string)
    ensures At(cfg, b, |b|) == Feed(cfg, INITIAL, b)
  {
    assert b[..|b|] == b;
  }

  // ---------------------------------------------------------------------
  // Nothing else is accepted

  lemma {:induction false} GapFound(b: string, i: nat) returns (k: nat)
    requires i <= |b|
    ensures Gap(b, i, k) && (k < |b| ==> !BlankByte(b[k]))
    decreases |b| - i
  {
    hide BlankByte;
    if i < |b| && BlankByte(b[i]) {
      k := GapFound(b, i + 1);
    } else {
      k := i;
    }
  }

  /** A text does not end inside of a container. */
  lemma EndsOutside(cfg: Config, b: string, fr: Frame)
    requires Survives(cfg, b) && Settled(cfg, b, |b|).Parsing? && Settled(cfg, b, |b|).stack == StackOf(fr)
    ensures fr.TopLevel?
  {
    hide At, Settle, Sound;
    SettleStack(cfg, At(cfg, b, |b|));
  }

  lemma NoValue(cfg: Config, s: State, c: char)
    requires AcceptsValue(s) && !BlankByte(c) && !ClosesTop(s, c) && !BeginsValueChar(c)
    ensures Step(cfg, s, c).Failed?
  {
    hide Sound, ClosesTop;
  }

  /** The rest of a literal is there. */
  lemma {:induction false} LiteralFound(cfg: Config, b: string, i: nat)
    requires i <= |b| && Survives(cfg, b) && At(cfg, b, i).Parsing? && At(cfg, b, i).mode == InLiteral
    ensures var s := At(cfg, b, i); var text := LiteralText(s.literal);
            && s.matched < |text| && i + |text| - s.matched <= |b| && b[i..i + |text| - s.matched] == text[s.matched..]
            && |s.nodes| < cfg.nodesCap
    decreases |b| - i
  {
    hide At, Step, LiteralText, Survives;
    var s := At(cfg, b, i);
    var text := LiteralText(s.literal);
    NotInString(cfg, b, i);
    OneStep(cfg, b, i);
    NeverFailed(cfg, b, i + 1);
    LiteralForced(cfg, s, b[i]);
    var n := |text| - s.matched;
    assert text[s.matched..] == [b[i]] + text[s.matched + 1..];
    if n > 1 {
      LiteralFound(cfg, b, i + 1);
      assert b[i..i + n] == [b[i]] + b[i + 1..i + n];
    } else {
      assert b[i..i + n] == [b[i]];
    }
  }

  lemma LiteralForced(cfg: Config, s: State, c: char)
    requires Sound(s) && s.Parsing? && s.mode == InLiteral && Step(cfg, s, c).Parsing?
    ensures s.matched < |LiteralText(s.literal)| && c == LiteralText(s.literal)[s.matched]
    ensures s.matched + 1 < |LiteralText(s.literal)| ==> Step(cfg, s, c) == s.(matched := s.matched + 1, consumed := s.consumed + 1)
    ensures s.matched + 1 == |LiteralText(s.literal)| ==> |s.nodes| < cfg.nodesCap
  {
    hide CountChild, InheritHash;
  }

  /** A number that is still being read at e is not continued by the byte there. */
  ghost predicate Ended(cfg: Config, b: string, e: nat)
    requires e <= |b|
  {
    var s := At(cfg, b, e);
    e < |b| && s.Parsing? && s.mode == InNumber ==> NumberChar(s.num, b[e]) == None
  }

  lemma StringValueFound(cfg: Config, b: string, i: nat) returns (t: Tree)
    requires i < |b| && AcceptsValue(At(cfg, b, i)) && Survives(cfg, b) && b[i] == '"'
    ensures t.start == i && t.end <= |b| && Form(b, t) && !IsContainer(t.kind) && |At(cfg, b, i).nodes| < cfg.nodesCap
    ensures Ended(cfg, b, t.end)
  {
    hide At, Sound, Step, StringBytes;
    OneStep(cfg, b, i);
    StringBegins(cfg, At(cfg, b, i));
    var j := StringFound(cfg, b, i + 1);
    StringFed(cfg, b, i + 1, j);
    OneStep(cfg, b, j);
    EndString(cfg, At(cfg, b, j));
    NeverFailed(cfg, b, j + 1);
    StringAdds(cfg, At(cfg, b, j));
    t := Tree(JSON_STRING, i, j + 1, NoTrees);
  }

  lemma StringAdds(cfg: Config, w: State)
    requires Plain(w) && Next(AddString(cfg, w)).Parsing?
    ensures |w.nodes| < cfg.nodesCap && Next(AddString(cfg, w)).mode in {AfterValue, ExpectColon}
  {
    hide Sound, CountChild;
  }

  lemma NumberValueFound(cfg: Config, b: string, i: nat) returns (t: Tree)
    requires i < |b| && AcceptsValue(At(cfg, b, i)) && Survives(cfg, b) && (b[i] == '-' || IsDigit(b[i]))
    ensures t.start == i && t.end <= |b| && Form(b, t) && !IsContainer(t.kind) && |At(cfg, b, i).nodes| < cfg.nodesCap
    ensures Ended(cfg, b, t.end)
  {
    hide At, Sound, Step, IsDigit, NumComplete, Numbering, Joined, NumberChar;
    OneStep(cfg, b, i);
    NumberBegins(cfg, At(cfg, b, i), b[i]);
    assert b[i..i + 1] == [b[i]];
    var j, p := NumberFound(cfg, b, i, i + 1, FirstPart(b[i]));
    NumberingText(At(cfg, b, i), At(cfg, b, j), b[i..j], p);
    NumberAdds(cfg, b, j);
    var kind := if p.point != "" || p.mark != "" then JSON_NUMBER_FLOAT else JSON_NUMBER_INT;
    t := Tree(kind, i, j, NoTrees);
    assert NumberForm(b[i..j], p, kind);
  }

  lemma NumberingText(s: State, t: State, text: string, p: NumParts)
    requires s.Parsing? && Numbering(s, t, text, p)
    ensures text == Joined(p) && t.Parsing? && t.nodes == s.nodes && t.mode == InNumber
  {
  }

  lemma NumberAdds(cfg: Config, b: string, j: nat)
    requires j <= |b| && Survives(cfg, b) && At(cfg, b, j).Parsing? && At(cfg, b, j).mode == InNumber
    requires j < |b| ==> NumberChar(At(cfg, b, j).num, b[j]) == None
    ensures |At(cfg, b, j).nodes| < cfg.nodesCap
  {
    hide At, Sound, Step, NumberChar, NumberComplete;
    var t := At(cfg, b, j);
    if j < |b| {
      OneStep(cfg, b, j);
      NeverFailed(cfg, b, j + 1);
      StepEnds(cfg, t, b[j]);
    } else {
      FinishEnds(cfg, t);
    }
    SettleAdds(cfg, t);
  }

  lemma SettleAdds(cfg: Config, t: State)
    requires Sound(t) && t.Parsing? && t.mode == InNumber && Settle(cfg, t).Parsing?
    ensures |t.nodes| < cfg.nodesCap
  {
    hide Sound, NumberComplete;
  }

  lemma LiteralBegins(cfg: Config, s: State, c: char)
    requires AcceptsValue(s) && c in "tfn"
    ensures var u := Step(cfg, s, c);
            && u.Parsing? && u.mode == InLiteral && u.matched == 1 && u.nodes == s.nodes && LiteralText(u.literal)[0] == c
            && u.literal in {JSON_TRUE, JSON_FALSE, JSON_NULL}
  {
    hide Step, Sound;
    BeginsValue(cfg, s, c);
  }

  lemma LiteralValueFound(cfg: Config, b: string, i: nat) returns (t: Tree)
    requires i < |b| && AcceptsValue(At(cfg, b, i)) && Survives(cfg, b) && b[i] in "tfn"
    ensures t.start == i && t.end <= |b| && Form(b, t) && !IsContainer(t.kind) && |At(cfg, b, i).nodes| < cfg.nodesCap
    ensures Ended(cfg, b, t.end)
  {
    hide At, Sound, Step, After, CountChild, Survives, Inherited, AcceptsValue;
    AcceptsParsing(At(cfg, b, i));
    OneStep(cfg, b, i);
    LiteralBegins(cfg, At(cfg, b, i), b[i]);
    LiteralFound(cfg, b, i + 1);
    var kind := At(cfg, b, i + 1).literal;
    var j := i + |LiteralText(kind)|;
    assert b[i..j] == [b[i]] + b[i + 1..j];
    assert LiteralText(kind) == [b[i]] + LiteralText(kind)[1..];
    LiteralValueFed(cfg, b, i, j, kind);
    LiteralEnded(cfg, b, i, j, kind);
    t := Tree(kind, i, j, NoTrees);
  }

  lemma LiteralEnded(cfg: Config, b: string, i: nat, j: nat, kind: JsonType)
    requires i <= j <= |b| && AcceptsValue(At(cfg, b, i))
    requires var s := At(cfg, b, i);
             After(s, At(cfg, b, j), CountChild(s.nodes + [JsonNode(kind, Inherited(s), U32(i), j - i, 0, None)], s.stack), j - i)
    ensures Ended(cfg, b, j)
  {
    hide At, Sound, CountChild, Inherited;
  }
}
