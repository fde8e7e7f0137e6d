/** Build, print, parse: all three on their arrays and buffers. */
module CejsonRoundTrip {
  import opened Text
  import opened CejsonSpec
  import opened CejsonText
  import opened CejsonBuilt
  import opened StringBuf
  import opened CejsonPieces
  import opened CejsonBuilder
  import opened CejsonParser

  /** The text, if it fits in its buffer, may be cut anywhere before it is parsed. */
  method BuildPrintParse(v: Value, nodesCap: nat, stackCap: nat, mix: (nat, char) -> nat, cut: nat) returns (ok: bool, parsed: seq<JsonNode>)
    requires |Built(v)| <= nodesCap && Depth(v) <= stackCap && InWidths(v)
    requires AllFit(JSON_STRINGBUF_MAX_CAP, NEW_BUFFER, Pieces(v))
    requires cut <= |Print(v)|
    ensures ok && AllSimilar(parsed, Built(v), Print(v))
  {
    hide Built, Print, Pieces, AllFit, Depth, Similar, AllSimilar, CejsonSpec.Feed, CejsonSpec.Finish, Sound;
    var text := BuildAndPrint(v, nodesCap);
    var p := new JsonParser(nodesCap, stackCap, mix);
    var first := p.Feed(text[..cut]);
    var second := p.Feed(text[cut..]);
    ok := p.Finish();
    assert text[..cut] + text[cut..] == text;
    FeedSplit(p.Cfg(), INITIAL, text[..cut], text[cut..]);
    RoundTrip(p.Cfg(), v);
    parsed := p.nodes[..p.nodesLen];
  }
}
