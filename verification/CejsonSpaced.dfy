/** The tokens of a value with blanks between them: when such a text is accepted, and the array it gives. */
module CejsonSpaced {
  import opened Text
  import opened Numerals
  import opened CejsonSpec
  import opened CejsonText
  import opened CejsonBuilt
  import opened CejsonGrammar
  import opened CejsonScan
  import opened CejsonNumber
  import opened CejsonAccepted
  import opened CejsonSound

  // ---------------------------------------------------------------------
  // Texts of a value

  /** The tokens of the tree are those of the value. */
  ghost predicate Denotes(b: string, t: Tree, v: Value)
    requires t.start <= t.end <= |b|
    decreases v, 0
  {
    match v
    case VNull => t.kind == JSON_NULL
    case VBool(yes) => t.kind == if yes then JSON_TRUE else JSON_FALSE
    case VInt(n) => t.kind == JSON_NUMBER_INT && b[t.start..t.end] == PrintInt(n)
    case VString(s) => t.kind == JSON_STRING && b[t.start..t.end] == Quote(s)
    case VArray(items) => t.kind == JSON_ARRAY && ItemsDenote(b, t.items, items, false)
    case VObject(fields) => t.kind == JSON_OBJECT && ItemsDenote(b, t.items, fields, true)
  }

  ghost predicate ItemsDenote(b: string, trees: Trees, items: Values, keyed: bool)
    decreases items, 1
  {
    match items
    case None_ => trees.NoTrees?
    case More(init, key, value) =>
      && trees.MoreTrees? && ItemsDenote(b, trees.init, init, keyed)
      && trees.value.start <= trees.value.end <= |b| && Denotes(b, trees.value, value)
      && (keyed ==> trees.keyStart <= trees.keyEnd <= |b| && b[trees.keyStart..trees.keyEnd] == Quote(key))
  }

  /** Like `Form`, with blanks allowed before a colon, too. */
  ghost predicate Loose(b: string, t: Tree)
    decreases t, 0
  {
    if t.kind == JSON_ARRAY || t.kind == JSON_OBJECT then
      && t.start + 2 <= t.end <= |b|
      && b[t.start] == (if t.kind == JSON_OBJECT then '{' else '[') && b[t.end - 1] == (if t.kind == JSON_OBJECT then '}' else ']')
      && LooseItems(b, t.start + 1, t.items, t.kind == JSON_OBJECT) && Gap(b, EndOf(t.start + 1, t.items), t.end - 1)
    else Form(b, t)
  }

  ghost predicate LooseItems(b: string, i: nat, items: Trees, keyed: bool)
    decreases items, 0
  {
    match items
    case NoTrees => true
    case MoreTrees(init, keyStart, keyEnd, value) =>
      && LooseItems(b, i, init, keyed) && Loose(b, value)
      && Leads(b, EndOf(i, init), init, if keyed then keyStart else value.start)
      && (keyed ==> StringForm(b, keyStart, keyEnd) && exists colon: nat :: Gap(b, keyEnd, colon) && colon < |b| && b[colon] == ':' && Gap(b, colon + 1, value.start))
  }

  /** Every colon stands right behind its key. */
  ghost predicate Tight(b: string, t: Tree)
    decreases t, 0
  {
    t.kind == JSON_ARRAY || t.kind == JSON_OBJECT ==> TightItems(b, t.items, t.kind == JSON_OBJECT)
  }

  ghost predicate TightItems(b: string, items: Trees, keyed: bool)
    decreases items, 0
  {
    items.MoreTrees? ==>
      TightItems(b, items.init, keyed) && Tight(b, items.value) && (keyed ==> items.keyEnd < |b| && b[items.keyEnd] == ':')
  }

  /** The tokens of v, with any number of blanks, tabs, line feeds and carriage returns before, between and behind them. */
  ghost predicate Spaced(b: string, t: Tree, v: Value) {
    t.start <= t.end <= |b| && Loose(b, t) && Denotes(b, t, v) && Gap(b, 0, t.start) && Gap(b, t.end, |b|)
  }

  // ---------------------------------------------------------------------
  // Sizes

  lemma {:induction false} SameSizes(b: string, t: Tree, v: Value)
    requires t.start <= t.end <= |b| && Loose(b, t) && Denotes(b, t, v)
    ensures |Marks(t)| == |Built(v)| && Height(t) == Depth(v)
    decreases v, 0
  {
    hide Quote, StringForm, Gap;
    match v {
      case VArray(items) => SameItems(b, t.start + 1, t.items, items, false);
      case VObject(fields) => SameItems(b, t.start + 1, t.items, fields, true);
      case _ =>
        assert t.items.NoTrees? && MarksOf(t.items, false) == [];
    }
  }

  lemma {:induction false} SameItems(b: string, i: nat, trees: Trees, items: Values, keyed: bool)
    requires LooseItems(b, i, trees, keyed) && ItemsDenote(b, trees, items, keyed)
    ensures |MarksOf(trees, keyed)| == |BuiltItems(items, keyed)| && HeightOf(trees) == DepthItems(items) && CountTrees(trees) == Count(items)
    decreases items, 1
  {
    hide Quote, Leads, Gap, StringForm;
    if items.More? {
      SameItems(b, i, trees.init, items.init, keyed);
      SameSizes(b, trees.value, items.value);
    }
  }

  // ---------------------------------------------------------------------
  // The colon

  lemma ColonThere(b: string, keyEnd: nat, start: nat)
    requires exists colon: nat :: Gap(b, keyEnd, colon) && colon < |b| && b[colon] == ':' && Gap(b, colon + 1, start)
    ensures keyEnd < |b| && (b[keyEnd] == ':' ==> Gap(b, keyEnd + 1, start))
  {
    var colon: nat :| Gap(b, keyEnd, colon) && colon < |b| && b[colon] == ':' && Gap(b, colon + 1, start);
    if keyEnd < colon {
      assert BlankByte(b[keyEnd]);
    }
  }

  lemma {:induction false} TightForm(b: string, t: Tree)
    requires Loose(b, t)
    ensures Tight(b, t) ==> Form(b, t)
    decreases t, 0
  {
    hide StringForm, Gap;
    if IsContainer(t.kind) {
      TightListed(b, t.start + 1, t.items, t.kind == JSON_OBJECT);
    }
  }

  lemma {:induction false} TightListed(b: string, i: nat, items: Trees, keyed: bool)
    requires LooseItems(b, i, items, keyed)
    ensures TightItems(b, items, keyed) ==> Listed(b, i, items, keyed)
    decreases items, 0
  {
    hide StringForm, Gap, Leads;
    if items.MoreTrees? {
      TightListed(b, i, items.init, keyed);
      TightForm(b, items.value);
      if keyed {
        ColonThere(b, items.keyEnd, items.value.start);
      }
    }
  }

  /** Behind a key the parser takes nothing but a colon. */
  lemma ColonForced(cfg: Config, b: string, i: nat, j: nat)
    requires StringForm(b, i, j) && j < |b| && Survives(cfg, b)
    requires var s := At(cfg, b, i); Ready(s) && s.mode == Normal && s.stack != [] && s.expecting[|s.stack| - 1]
    ensures b[j] == ':'
  {
    hide At, Sound, Step, StringBytes, AddString, Survives;
    OneStep(cfg, b, i);
    KeyPlain(cfg, At(cfg, b, i));
    StringFed(cfg, b, i + 1, j - 1);
    var w := At(cfg, b, j - 1);
    OneStep(cfg, b, j - 1);
    EndString(cfg, w);
    NeverFailed(cfg, b, j);
    KeyPending(cfg, w);
    OneStep(cfg, b, j);
    NeverFailed(cfg, b, j + 1);
    if b[j] != ':' {
      ColonNeeded(cfg, At(cfg, b, j), b[j]);
    }
  }

  lemma {:induction false} SurvivorTight(cfg: Config, b: string, t: Tree)
    requires Loose(b, t) && t.start < t.end <= |b| && AcceptsValue(At(cfg, b, t.start)) && Survives(cfg, b)
    requires Fits(cfg, At(cfg, b, t.start), t)
    ensures Tight(b, t)
    decreases t, 2
  {
    hide At, Survives, Gap, Behind, Form, Sound, CountChild;
    if IsContainer(t.kind) {
      MarksLength(t);
      var fr := OpenFed(cfg, b, t.start, t.kind);
      SurvivorItems(cfg, b, t.start + 1, t.items, fr);
    }
  }

  lemma {:induction false} SurvivorItems(cfg: Config, b: string, i: nat, items: Trees, fr: Frame)
    requires i <= |b| && LooseItems(b, i, items, Keyed(fr)) && Behind(fr, Settled(cfg, b, i), 0, []) && Survives(cfg, b) && Room(cfg, fr, items)
    ensures TightItems(b, items, Keyed(fr))
    decreases items, 1
  {
    hide At, Settled, Behind, AtNext, AtValue, Loose, Tight, Gap, StringForm, Leads, Survives, Marks, Height, StackBase, StackOf, Keyed, Marked;
    match items {
      case NoTrees =>
      case MoreTrees(init, keyStart, keyEnd, value) =>
        SurvivorItems(cfg, b, i, init, fr);
        TightListed(b, i, init, Keyed(fr));
        var before := RoomFed(cfg, b, i, init, fr);
        var count, first := CountTrees(init), if Keyed(fr) then keyStart else value.start;
        LeadFed(cfg, b, EndOf(i, init), first, init, fr, before);
        NodesAtNext(fr, At(cfg, b, first), count, before);
        var rest := before;
        if Keyed(fr) {
          NextExpects(fr, At(cfg, b, first), count, before);
          ColonThere(b, keyEnd, value.start);
          ColonForced(cfg, b, first, keyEnd);
          var key := NextKey(cfg, b, first, keyEnd, fr, count, before);
          GapWithin(b, keyEnd + 1, value.start);
          GapAtValue(cfg, b, keyEnd + 1, value.start, fr, count, before + [key]);
          rest := before + [key];
        } else {
          NextIsValue(fr, At(cfg, b, first), count, before);
        }
        NodesAtValue(fr, At(cfg, b, value.start), count, rest);
        LooseWithin(b, value);
        SurvivorTight(cfg, b, value);
    }
  }

  lemma LooseWithin(b: string, t: Tree)
    requires Loose(b, t)
    ensures t.start < t.end <= |b|
  {
  }

  // ---------------------------------------------------------------------
  // The array

  lemma StringSimilarTo(b: string, t: Tree, s: string, node: JsonNode)
    requires t.start < t.end <= |b| < 0x1_0000_0000 && b[t.start..t.end] == Quote(s) && Marked(node, StringMark(t.start, t.end))
    ensures Similar(node, BuiltString(s), b)
  {
    hide Escape, Quote;
    QuoteInside(b, t.start, t.end, s);
  }

  lemma IntSimilarTo(b: string, i: nat, j: nat, n: int, node: JsonNode)
    requires i < j <= |b| < 0x1_0000_0000 && b[i..j] == PrintInt(n) && Marked(node, Mark(JSON_NUMBER_INT, i, j - i, 0, 0))
    ensures Similar(node, JsonNode(JSON_NUMBER_INT, 0, 0, |PrintInt(n)|, 0, Some(PrintInt(n))), b)
  {
    hide PrintInt;
  }

  lemma WordSimilarTo(b: string, node: JsonNode, m: Mark)
    requires Marked(node, m) && m.children == 0 && m.kind in {JSON_NULL, JSON_TRUE, JSON_FALSE}
    ensures Similar(node, JsonNode(m.kind, 0, 0, 0, 0, None), b)
  {
  }

  lemma LeafMarks(b: string, t: Tree)
    requires Form(b, t) && !IsContainer(t.kind)
    ensures Marks(t) == [if t.kind == JSON_STRING then StringMark(t.start, t.end) else Mark(t.kind, t.start, t.end - t.start, 0, 0)]
  {
    assert MarksOf(t.items, false) == [];
  }

  lemma OneOf(nodes: seq<JsonNode>, m: Mark)
    requires AllMarked(nodes, [m])
    ensures |nodes| == 1 && Marked(nodes[0], m)
  {
    assert Marked(nodes[0], [m][0]);
  }

  lemma OneSimilar(nodes: seq<JsonNode>, built: JsonNode, b: string)
    requires |nodes| == 1 && Similar(nodes[0], built, b)
    ensures AllSimilar(nodes, [built], b)
  {
  }

  lemma LeafSimilar(b: string, t: Tree, v: Value, nodes: seq<JsonNode>)
    requires Form(b, t) && t.start < t.end <= |b| < 0x1_0000_0000 && Denotes(b, t, v) && !IsContainer(t.kind) && AllMarked(nodes, Marks(t))
    ensures AllSimilar(nodes, Built(v), b)
  {
    hide Quote, PrintInt, Form, Marks, Marked, AllMarked, Similar, AllSimilar, BuiltString;
    LeafMarks(b, t);
    OneOf(nodes, Marks(t)[0]);
    if v.VInt? {
      IntSimilarTo(b, t.start, t.end, v.n, nodes[0]);
    } else if v.VString? {
      StringSimilarTo(b, t, v.s, nodes[0]);
    } else {
      WordSimilarTo(b, nodes[0], Marks(t)[0]);
    }
    OneSimilar(nodes, Built(v)[0], b);
  }

  lemma QuoteInside(b: string, i: nat, j: nat, s: string)
    requires i <= j <= |b| && b[i..j] == Quote(s)
    ensures j == i + |Escape(s)| + 2 && b[i + 1..j - 1] == Escape(s)
  {
    hide Escape;
    var e := Escape(s);
    var q := "\"" + e + "\"";
    assert q[1..1 + |e|] == e;
    SliceDrop(b, i, j, 1);
    SliceTake(b, i + 1, j, |e|);
    assert b[i..j][1..][..|e|] == q[1..1 + |e|];
  }

  lemma {:induction false} TreeSimilar(b: string, t: Tree, v: Value, nodes: seq<JsonNode>)
    requires Form(b, t) && Loose(b, t) && t.start < t.end <= |b| < 0x1_0000_0000 && Denotes(b, t, v) && AllMarked(nodes, Marks(t))
    ensures AllSimilar(nodes, Built(v), b)
    decreases v, 0
  {
    hide Quote, StringForm, Gap, AllSimilar, AllMarked, LooseItems, Listed, ItemsDenote;
    if IsContainer(t.kind) {
      var keyed := t.kind == JSON_OBJECT;
      var items := if keyed then v.fields else v.items;
      var below := MarksOf(t.items, keyed);
      var mark := Mark(t.kind, t.start, t.end - t.start, CountTrees(t.items), |below|);
      MarkedSplit(nodes, [mark], below);
      ItemsSimilarIn(b, t.start + 1, t.items, items, keyed, nodes[1..]);
      SameItems(b, t.start + 1, t.items, items, keyed);
      assert nodes[..1] == [nodes[0]];
      HeadAlike(b, nodes[0], mark, v, items);
      SimilarConcat([nodes[0]], nodes[1..], [BuiltHead(t.kind, Count(items), |BuiltItems(items, keyed)|)], BuiltItems(items, keyed), b);
      assert nodes == [nodes[0]] + nodes[1..];
    } else {
      LeafSimilar(b, t, v, nodes);
    }
  }

  lemma MarkedSplit(nodes: seq<JsonNode>, m: seq<Mark>, n: seq<Mark>)
    requires AllMarked(nodes, m + n)
    ensures |nodes| == |m| + |n| && AllMarked(nodes[..|m|], m) && AllMarked(nodes[|m|..], n)
  {
    hide Marked;
    assert forall i :: 0 <= i < |m| ==> (m + n)[i] == m[i];
    assert forall i :: 0 <= i < |n| ==> (m + n)[|m| + i] == n[i];
  }

  lemma HeadAlike(b: string, node: JsonNode, m: Mark, v: Value, items: Values)
    requires IsContainer(m.kind) && m.children == Count(items)
    requires m.below == |BuiltItems(items, m.kind == JSON_OBJECT)|
    requires AllMarked([node], [m])
    ensures AllSimilar([node], [BuiltHead(m.kind, Count(items), |BuiltItems(items, m.kind == JSON_OBJECT)|)], b)
  {
    assert Marked([node][0], [m][0]);
  }

  lemma KeySimilar(b: string, i: nat, j: nat, key: string, node: JsonNode)
    requires i <= j <= |b| < 0x1_0000_0000 && b[i..j] == Quote(key) && AllMarked([node], [StringMark(i, j)])
    ensures AllSimilar([node], [BuiltString(key)], b)
  {
    hide Quote, Escape;
    assert Marked([node][0], [StringMark(i, j)][0]);
    QuoteInside(b, i, j, key);
  }

  lemma {:induction false} EntrySimilarIn(b: string, trees: Trees, items: Values, keyed: bool, rest: seq<JsonNode>)
    requires trees.MoreTrees? && items.More? && |b| < 0x1_0000_0000 && Form(b, trees.value) && Loose(b, trees.value)
    requires trees.value.start < trees.value.end <= |b| && Denotes(b, trees.value, items.value)
    requires keyed ==> trees.keyStart <= trees.keyEnd <= |b| && b[trees.keyStart..trees.keyEnd] == Quote(items.key)
    requires AllMarked(rest, (if keyed then [StringMark(trees.keyStart, trees.keyEnd)] else []) + Marks(trees.value))
    ensures AllSimilar(rest, BuiltKey(items.key, keyed) + Built(items.value), b)
    decreases items, 0
  {
    hide Quote, AllSimilar, AllMarked, Form, Loose, Denotes, Marks, Built, BuiltString;
    var k := if keyed then [StringMark(trees.keyStart, trees.keyEnd)] else [];
    MarkedSplit(rest, k, Marks(trees.value));
    TreeSimilar(b, trees.value, items.value, rest[|k|..]);
    if keyed {
      assert rest[..1] == [rest[0]] && rest == rest[..1] + rest[1..];
      KeySimilar(b, trees.keyStart, trees.keyEnd, items.key, rest[0]);
      SimilarConcat(rest[..1], rest[1..], [BuiltString(items.key)], Built(items.value), b);
    } else {
      assert rest[0..] == rest && [] + Built(items.value) == Built(items.value);
    }
  }

  lemma {:induction false} ItemsSimilarIn(b: string, i: nat, trees: Trees, items: Values, keyed: bool, nodes: seq<JsonNode>)
    requires Listed(b, i, trees, keyed) && LooseItems(b, i, trees, keyed) && ItemsDenote(b, trees, items, keyed) && |b| < 0x1_0000_0000
    requires AllMarked(nodes, MarksOf(trees, keyed))
    ensures AllSimilar(nodes, BuiltItems(items, keyed), b)
    decreases items, 1
  {
    hide Quote, StringForm, Gap, AllSimilar, AllMarked, Form, Loose, Leads, Denotes, Marks, Built, BuiltKey;
    if items.None_? {
      NothingSimilar(b, nodes);
    } else {
      var a, e := MarksOf(trees.init, keyed), (if keyed then [StringMark(trees.keyStart, trees.keyEnd)] else []) + Marks(trees.value);
      MarkedSplit(nodes, a, e);
      FormWithin(b, trees.value);
      ItemsSimilarIn(b, i, trees.init, items.init, keyed, nodes[..|a|]);
      EntrySimilarIn(b, trees, items, keyed, nodes[|a|..]);
      SimilarConcat(nodes[..|a|], nodes[|a|..], BuiltItems(items.init, keyed), BuiltKey(items.key, keyed) + Built(items.value), b);
      assert nodes == nodes[..|a|] + nodes[|a|..];
      assert BuiltItems(items, keyed) == BuiltItems(items.init, keyed) + (BuiltKey(items.key, keyed) + Built(items.value));
    }
  }

  lemma NothingSimilar(b: string, nodes: seq<JsonNode>)
    requires AllMarked(nodes, [])
    ensures AllSimilar(nodes, [], b)
  {
  }

  // ---------------------------------------------------------------------
  // Texts

  function Only(t: Tree): Trees { MoreTrees(NoTrees, 0, 0, t) }

  lemma OnlyIs(b: string, t: Tree)
    requires Form(b, t) && Gap(b, 0, t.start) && Gap(b, t.end, |b|)
    ensures Document(b, Only(t)) && MarksOf(Only(t), false) == Marks(t) && HeightOf(Only(t)) == Height(t)
  {
    hide Form, Marks, Height, Gap;
    assert MarksOf(NoTrees, false) == [];
    assert MarksOf(Only(t), false) == MarksOf(NoTrees, false) + ([] + Marks(t)) == Marks(t);
    assert Listed(b, 0, NoTrees, false) && Leads(b, EndOf(0, NoTrees), NoTrees, t.start);
    assert Listed(b, 0, Only(t), false);
    assert EndOf(0, Only(t)) == t.end;
    assert HeightOf(NoTrees) == 0;
  }

  lemma TopValue(cfg: Config, b: string, t: Tree)
    requires t.start <= |b| && Gap(b, 0, t.start)
    ensures AtValue(TopLevel, At(cfg, b, t.start), 0, [])
  {
    hide At, Gap;
    InitialOpen(cfg, b);
    FirstNext(cfg, b, 0, TopLevel, []);
    GapNext(cfg, b, 0, t.start, TopLevel, 0, []);
    NextIsValue(TopLevel, At(cfg, b, t.start), 0, []);
  }

  /** The tokens of a value with blanks anywhere between them, within the capacities: the text is accepted exactly when
      every colon stands right behind its key; and then the array has the types, child counts, spans and string slices
      of the one built from the value. */
  lemma SpacedIff(cfg: Config, v: Value, b: string, t: Tree)
    requires Spaced(b, t, v) && |Built(v)| <= cfg.nodesCap && Depth(v) <= cfg.stackCap
    ensures var s := Finish(cfg, Feed(cfg, INITIAL, b));
            && (Accepted(s) <==> Tight(b, t))
            && (Tight(b, t) && |b| < 0x1_0000_0000 ==> AllSimilar(s.nodes, Built(v), b))
  {
    hide Loose, Denotes, Form, Gap, Built, Marks, Height, Depth, AllSimilar, AllMarked, Feed, Finish, At, Tight, Document, MarksOf, HeightOf;
    SameSizes(b, t, v);
    LooseWithin(b, t);
    TightForm(b, t);
    if Tight(b, t) {
      OnlyIs(b, t);
      DocumentAccepted(cfg, b, Only(t));
      if |b| < 0x1_0000_0000 {
        TreeSimilar(b, t, v, Finish(cfg, Feed(cfg, INITIAL, b)).nodes);
      }
    }
    if Accepted(Finish(cfg, Feed(cfg, INITIAL, b))) {
      AtEnd(cfg, b);
      TopValue(cfg, b, t);
      TopCaps();
      SurvivorTight(cfg, b, t);
    }
  }

  lemma OneForm()
    ensures NumberForm("1", NumParts("", "1", "", "", "", "", ""), JSON_NUMBER_INT)
  {
    hide DigitByte;
    DigitTable('1');
  }

  lemma OneIsNumber(b: string, i: nat)
    requires i < |b| && b[i] == '1'
    ensures Form(b, Tree(JSON_NUMBER_INT, i, i + 1, NoTrees))
    ensures b[i..i + 1] == PrintInt(1)
  {
    hide NumberForm;
    OneForm();
    assert b[i..i + 1] == "1";
  }

  lemma QuotedA()
    ensures Quote("a") == "\"a\""
  {
    assert "a"[..0] == "";
    assert EscapeChar('a') == "a";
  }

  lemma OneByteString(b: string, i: nat)
    requires i < |b| && b[i] != '"' && b[i] != '\\'
    ensures StringBytes(b, i, i + 1)
  {
    assert StringBytes(b, i + 1, i + 1);
  }

  lemma KeyAIsString(b: string, i: nat)
    requires i + 3 <= |b| && b[i] == '"' && b[i + 1] == 'a' && b[i + 2] == '"'
    ensures StringForm(b, i, i + 3) && b[i..i + 3] == Quote("a")
  {
    hide StringBytes, Quote, Escape;
    OneByteString(b, i + 1);
    QuotedA();
  }

  lemma SampleShape(b: string, t: Tree)
    requires b == "{\"a\" :1}" && t == Tree(JSON_OBJECT, 0, 8, MoreTrees(NoTrees, 1, 4, Tree(JSON_NUMBER_INT, 6, 7, NoTrees)))
    ensures Spaced(b, t, VObject(More(None_, "a", VInt(1)))) && !Tight(b, t)
  {
    hide Form, StringForm, Quote, Escape, PrintInt;
    OneIsNumber(b, 6);
    KeyAIsString(b, 1);
    assert Gap(b, 4, 5) && b[5] == ':' && Gap(b, 6, 6);
    assert LooseItems(b, 1, NoTrees, true);
    assert LooseItems(b, 1, t.items, true);
    assert ItemsDenote(b, NoTrees, None_, true);
  }

  /** It happens: a blank before a colon, and the text is not accepted. */
  lemma BlankBeforeColon(cfg: Config)
    requires cfg.nodesCap >= 3 && cfg.stackCap >= 1
    ensures !Accepted(Finish(cfg, Feed(cfg, INITIAL, "{\"a\" :1}")))
  {
    hide Spaced, Tight, Feed, Finish;
    var b := "{\"a\" :1}";
    var t := Tree(JSON_OBJECT, 0, 8, MoreTrees(NoTrees, 1, 4, Tree(JSON_NUMBER_INT, 6, 7, NoTrees)));
    SampleShape(b, t);
    SpacedIff(cfg, VObject(More(None_, "a", VInt(1))), b, t);
  }
}
