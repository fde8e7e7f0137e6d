/** The array the builder makes of a value, and its agreement with the parsed one. */
module CejsonBuilt {
  import opened Text
  import opened CejsonSpec
  import opened CejsonText

  function BuiltString(s: string): JsonNode { JsonNode(JSON_STRING, 0, 0, U32(|s|), 0, Some(s)) }

  function BuiltHead(kind: JsonType, children: nat, descendants: nat): JsonNode {
    JsonNode(kind, U28(descendants), 0, 0, children, None)
  }

  /** Preorder: a container before its elements, a key before its value. */
  function Built(v: Value): (r: seq<JsonNode>)
    ensures r != []
  {
    match v
    case VNull => [JsonNode(JSON_NULL, 0, 0, 0, 0, None)]
    case VBool(b) => [JsonNode(if b then JSON_TRUE else JSON_FALSE, 0, 0, 0, 0, None)]
    case VInt(n) => [JsonNode(JSON_NUMBER_INT, 0, 0, |PrintInt(n)|, 0, Some(PrintInt(n)))]
    case VString(s) => [BuiltString(s)]
    case VArray(items) => var below := BuiltItems(items, false); [BuiltHead(JSON_ARRAY, Count(items), |below|)] + below
    case VObject(fields) => var below := BuiltItems(fields, true); [BuiltHead(JSON_OBJECT, Count(fields), |below|)] + below
  }

  function BuiltKey(key: string, keyed: bool): seq<JsonNode> { if keyed then [BuiltString(key)] else [] }

  function BuiltItems(items: Values, keyed: bool): seq<JsonNode> {
    match items
    case None_ => []
    case More(init, key, value) => BuiltItems(init, keyed) + BuiltKey(key, keyed) + Built(value)
  }

  /** Same type, same number of children, same span of a container; the slice of the text that a
      parsed string denotes is the escape of the original string, that of a number its digits. */
  ghost predicate Similar(parsed: JsonNode, built: JsonNode, text: string) {
    && parsed.kind == built.kind && parsed.children == built.children
    && (IsContainer(built.kind) ==> parsed.hash == built.hash)
    && (built.kind == JSON_STRING || built.kind == JSON_NUMBER_INT ==>
          && built.strval.Some?
          && parsed.offset + parsed.len <= |text|
          && text[parsed.offset..parsed.offset + parsed.len] ==
             if built.kind == JSON_STRING then Escape(built.strval.value) else built.strval.value)
  }

  ghost predicate AllSimilar(parsed: seq<JsonNode>, built: seq<JsonNode>, text: string) {
    |parsed| == |built| && forall i :: 0 <= i < |built| ==> Similar(parsed[i], built[i], text)
  }

  lemma SimilarConcat(p: seq<JsonNode>, q: seq<JsonNode>, b: seq<JsonNode>, c: seq<JsonNode>, text: string)
    requires AllSimilar(p, b, text) && AllSimilar(q, c, text)
    ensures AllSimilar(p + q, b + c, text)
  {
    hide Similar;
  }

  lemma StringSimilar(text: string, at: nat, s: string, hash: nat)
    requires Holds(text, at, Quote(s)) && |text| < 0x1_0000_0000
    ensures Similar(JsonNode(JSON_STRING, hash, U32(at + 1), U32(|Escape(s)|), 0, None), BuiltString(s), text)
  {
    hide Escape;
    HoldsPart(text, at, "\"", Escape(s), "\"");
  }

  lemma HeadSimilar(text: string, kind: JsonType, offset: nat, len: nat, children: nat, below: seq<JsonNode>, built: seq<JsonNode>)
    requires IsContainer(kind) && AllSimilar(below, built, text)
    ensures AllSimilar(ContainerNodes(kind, offset, len, children, below), [BuiltHead(kind, children, |built|)] + built, text)
  {
  }

  lemma {:induction false} ValueSimilar(cfg: Config, v: Value, text: string, at: nat, hash: nat)
    requires Holds(text, at, Print(v)) && |text| < 0x1_0000_0000
    ensures AllSimilar(Nodes(cfg, v, at, hash), Built(v), text)
    decreases v, 0
  {
    hide PrintItems, Escape, ItemNodes, BuiltItems, Decimal;
    match v {
      case VNull =>
      case VBool(b) =>
      case VInt(n) =>
      case VString(s) => StringSimilar(text, at, s, 0);
      case VArray(items) =>
        HoldsPart(text, at, "[", PrintItems(items, false), "]");
        ItemsSimilar(cfg, items, false, text, at + 1);
        HeadSimilar(text, JSON_ARRAY, at, |Print(v)|, Count(items), ItemNodes(cfg, items, false, at + 1), BuiltItems(items, false));
      case VObject(fields) =>
        HoldsPart(text, at, "{", PrintItems(fields, true), "}");
        ItemsSimilar(cfg, fields, true, text, at + 1);
        HeadSimilar(text, JSON_OBJECT, at, |Print(v)|, Count(fields), ItemNodes(cfg, fields, true, at + 1), BuiltItems(fields, true));
    }
  }

  lemma {:induction false} ItemsSimilar(cfg: Config, items: Values, keyed: bool, text: string, at: nat)
    requires Holds(text, at, PrintItems(items, keyed)) && |text| < 0x1_0000_0000
    ensures AllSimilar(ItemNodes(cfg, items, keyed, at), BuiltItems(items, keyed), text)
    decreases items, 0
  {
    hide Print, Quote, Nodes, Built, Similar, AllSimilar, Holds, KeyHash;
    match items {
      case None_ => NoneSimilar(text);
      case More(init, key, value) =>
        var a, b, c, d := PrintItems(init, keyed), Separator(init), KeyText(key, keyed), Print(value);
        var whole := PrintItems(items, keyed);
        assert whole == "" + a + (b + c + d);
        HoldsPart(text, at, "", a, b + c + d);
        ItemsSimilar(cfg, init, keyed, text, at);
        assert whole == (a + b) + (c + d) + "";
        HoldsPart(text, at, a + b, c + d, "");
        EntrySimilar(cfg, key, value, keyed, text, at + |a + b|);
        SimilarConcat(ItemNodes(cfg, init, keyed, at), EntryNodes(cfg, key, value, keyed, at + |a + b|),
                      BuiltItems(init, keyed), BuiltKey(key, keyed) + Built(value), text);
        assert BuiltItems(items, keyed) == BuiltItems(init, keyed) + (BuiltKey(key, keyed) + Built(value));
        assert ItemStart(init, keyed, at) == at + |a + b|;
    }
  }

  lemma NoneSimilar(text: string)
    ensures AllSimilar([], [], text)
  {
  }

  lemma {:induction false} EntrySimilar(cfg: Config, key: string, value: Value, keyed: bool, text: string, at: nat)
    requires Holds(text, at, KeyText(key, keyed) + Print(value)) && |text| < 0x1_0000_0000
    ensures AllSimilar(EntryNodes(cfg, key, value, keyed, at), BuiltKey(key, keyed) + Built(value), text)
    decreases value, 1
  {
    hide Print, Nodes, Built, Similar, KeyHash, Quote, Holds;
    var c, d := KeyText(key, keyed), Print(value);
    assert c + d == c + d + "";
    HoldsPart(text, at, c, d, "");
    ValueSimilar(cfg, value, text, at + |c|, if keyed then U28(KeyHash(cfg, key)) else 0);
    if keyed {
      assert c + d == "" + Quote(key) + (":" + d);
      HoldsPart(text, at, "", Quote(key), ":" + d);
      StringSimilar(text, at, key, U28(KeyHash(cfg, key)));
      SimilarConcat([KeyNode(cfg, key, at)], Nodes(cfg, value, at + |c|, U28(KeyHash(cfg, key))), [BuiltString(key)], Built(value), text);
    } else {
      assert [] + Built(value) == Built(value);
    }
  }

  /** Build, print, parse: the text of any value is accepted, and the parsed array has the
      types, child counts and spans of the built one, each string being escaped. */
  lemma RoundTrip(cfg: Config, v: Value)
    requires |Built(v)| <= cfg.nodesCap && Depth(v) <= cfg.stackCap && |Print(v)| < 0x1_0000_0000
    ensures var s := Finish(cfg, Feed(cfg, INITIAL, Print(v)));
            Accepted(s) && AllSimilar(s.nodes, Built(v), Print(v))
  {
    hide Print, Built, Nodes, Similar, Feed, Finish;
    assert Print(v)[0..0 + |Print(v)|] == Print(v);
    ValueSimilar(cfg, v, Print(v), 0, 0);
    PrintedIsAccepted(cfg, v);
  }
}
