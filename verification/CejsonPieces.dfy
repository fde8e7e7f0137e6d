/** The pieces in which a value is printed: each is one append to the buffer. */
module CejsonPieces {
  import opened Text
  import opened CejsonText

  // ---------------------------------------------------------------------
  // Prefixes of item lists, in the order in which they are printed

  function Prefix(items: Values, n: nat): (r: Values)
    requires n <= Count(items)
    ensures Count(r) == n
  {
    if n == Count(items) then items else Prefix(items.init, n)
  }

  /** The item after the first n. */
  function ItemAt(items: Values, n: nat): (r: Values)
    requires n < Count(items)
    ensures r == items || r < items
    ensures r.More? && r == Prefix(items, n + 1) && r.init == Prefix(items, n)
    decreases items
  {
    if n + 1 == Count(items) then items else ItemAt(items.init, n)
  }

  // ---------------------------------------------------------------------
  // Printing strings

  lemma {:induction false} EscapeConcat(s: string, t: string)
    ensures Escape(s + t) == Escape(s) + Escape(t)
  {
    hide EscapeChar;
    if t == "" {
      assert s + t == s;
    } else {
      var last := |t| - 1;
      assert (s + t)[..|s + t| - 1] == s + t[..last];
      EscapeConcat(s, t[..last]);
    }
  }

  predicate NoEscape(s: string) { forall i :: 0 <= i < |s| ==> !NeedsEscape(s[i]) }

  lemma PlainChar(c: char)
    requires !NeedsEscape(c)
    ensures EscapeChar(c) == [c]
  {
  }

  /** A run without special bytes is printed as it is. */
  lemma {:induction false} EscapePlain(s: string)
    requires NoEscape(s)
    ensures Escape(s) == s
  {
    hide EscapeChar;
    if s != "" {
      var last := |s| - 1;
      EscapePlain(s[..last]);
      PlainChar(s[last]);
      assert s == s[..last] + [s[last]];
    }
  }

  /** The runs of a string behind runStart, when the bytes up to j need no escape. */
  function Runs(s: string, runStart: nat, j: nat): seq<string>
    requires runStart <= j <= |s|
    decreases |s| - j
  {
    if j == |s| then [s[runStart..]]
    else if NeedsEscape(s[j]) then [s[runStart..j], EscapeChar(s[j])] + Runs(s, j + 1, j + 1)
    else Runs(s, runStart, j + 1)
  }

  /** A quoted string: in one piece if nothing needs an escape, else run by run. */
  function QuotePieces(s: string): seq<string> {
    if NoEscape(s) then ["\"" + s + "\""] else ["\""] + Runs(s, 0, 0) + ["\""]
  }

  function Pieces(v: Value): seq<string> {
    match v
    case VNull => ["null"]
    case VBool(b) => [if b then "true" else "false"]
    case VInt(n) => [PrintInt(n)]
    case VString(s) => QuotePieces(s)
    case VArray(items) => if items.None_? then ["[]"] else ["["] + ItemPieces(items, false) + ["]"]
    case VObject(fields) => if fields.None_? then ["{}"] else ["{"] + ItemPieces(fields, true) + ["}"]
  }

  function CommaPieces(init: Values): seq<string> { if init.None_? then [] else [","] }

  function KeyPieces(key: string, keyed: bool): seq<string> { if keyed then QuotePieces(key) + [":"] else [] }

  function ItemPieces(items: Values, keyed: bool): seq<string> {
    match items
    case None_ => []
    case More(init, key, value) => ItemPieces(init, keyed) + CommaPieces(init) + (KeyPieces(key, keyed) + Pieces(value))
  }

  lemma RunGrows(s: string, a: nat, b: nat)
    requires a <= b < |s| && NoEscape(s[a..b])
    ensures NoEscape(s[b + 1..b + 1])
    ensures !NeedsEscape(s[b]) ==> NoEscape(s[a..b + 1])
  {
    hide NeedsEscape;
    var run := s[a..b + 1];
    assert run == s[a..b] + [s[b]];
  }

  lemma EscapeOne(c: char)
    ensures Escape([c]) == EscapeChar(c)
  {
    hide EscapeChar;
    assert [c][..0] == "";
  }

  lemma EscapeAt(s: string, a: nat, j: nat)
    requires a <= j < |s| && NoEscape(s[a..j])
    ensures Escape(s[a..]) == s[a..j] + EscapeChar(s[j]) + Escape(s[j + 1..])
  {
    hide Escape, NoEscape, EscapeChar;
    assert s[a..] == s[a..j] + ([s[j]] + s[j + 1..]);
    EscapeConcat(s[a..j], [s[j]] + s[j + 1..]);
    EscapeConcat([s[j]], s[j + 1..]);
    EscapePlain(s[a..j]);
    EscapeOne(s[j]);
    assert s[a..j] + (EscapeChar(s[j]) + Escape(s[j + 1..])) == s[a..j] + EscapeChar(s[j]) + Escape(s[j + 1..]);
  }

  lemma ConcatPair(x: string, y: string)
    ensures Concat([x, y]) == x + y
  {
    assert [x, y][..1] == [x];
    ConcatOne(x);
  }

  lemma {:induction false} RunsText(s: string, runStart: nat, j: nat)
    requires runStart <= j <= |s| && NoEscape(s[runStart..j])
    ensures Concat(Runs(s, runStart, j)) == Escape(s[runStart..])
    decreases |s| - j
  {
    hide Escape, NeedsEscape, EscapeChar, NoEscape, Concat;
    if j == |s| {
      ConcatOne(s[runStart..]);
      assert s[runStart..j] == s[runStart..];
      EscapePlain(s[runStart..]);
    } else {
      RunGrows(s, runStart, j);
      if NeedsEscape(s[j]) {
        RunsText(s, j + 1, j + 1);
        EscapeAt(s, runStart, j);
        ConcatPair(s[runStart..j], EscapeChar(s[j]));
        ConcatAppend([s[runStart..j], EscapeChar(s[j])], Runs(s, j + 1, j + 1));
      } else {
        RunsText(s, runStart, j + 1);
      }
    }
  }

  /** Brackets or quotes around pieces. */
  lemma ConcatAround(x: string, pieces: seq<string>, y: string)
    ensures Concat([x] + pieces + [y]) == x + Concat(pieces) + y
  {
    hide Concat;
    ConcatAppend([x] + pieces, [y]);
    ConcatAppend([x], pieces);
    ConcatOne(x);
    ConcatOne(y);
  }

  lemma QuoteText(s: string)
    ensures Concat(QuotePieces(s)) == Quote(s)
  {
    hide Escape, Concat, Runs;
    if NoEscape(s) {
      EscapePlain(s);
      ConcatOne("\"" + s + "\"");
    } else {
      assert s[0..0] == "" && s[0..] == s;
      RunsText(s, 0, 0);
      ConcatAround("\"", Runs(s, 0, 0), "\"");
    }
  }

  /** The pieces make up the text. */
  lemma {:induction false} PiecesText(v: Value)
    ensures Concat(Pieces(v)) == Print(v)
    decreases v, 0
  {
    hide Concat, QuotePieces, ItemPieces, PrintItems, Quote, PrintInt;
    assert "[" + "]" == "[]" && "{" + "}" == "{}";
    match v {
      case VNull => ConcatOne("null");
      case VBool(b) => ConcatOne(if b then "true" else "false");
      case VInt(n) => ConcatOne(PrintInt(n));
      case VString(s) => QuoteText(s);
      case VArray(items) => BracketText(items, "[", "]", false);
      case VObject(fields) => BracketText(fields, "{", "}", true);
    }
  }

  lemma BracketText(items: Values, open: string, close: string, keyed: bool)
    ensures Concat(if items.None_? then [open + close] else [open] + ItemPieces(items, keyed) + [close]) ==
            open + PrintItems(items, keyed) + close
    decreases items, 1
  {
    hide Concat;
    if items.None_? {
      ConcatOne(open + close);
      assert open + "" + close == open + close;
    } else {
      ItemsText(items, keyed);
      ConcatAround(open, ItemPieces(items, keyed), close);
    }
  }

  lemma {:induction false} ItemsText(items: Values, keyed: bool)
    ensures Concat(ItemPieces(items, keyed)) == PrintItems(items, keyed)
    decreases items, 0
  {
    hide Concat, Pieces, Print, KeyPieces, KeyText, Quote;
    match items {
      case None_ => NoPieces();
      case More(init, key, value) =>
        ItemsText(init, keyed);
        CommaText(init);
        KeyPiecesText(key, keyed);
        PiecesText(value);
        ConcatAppend(KeyPieces(key, keyed), Pieces(value));
        ConcatAppend(ItemPieces(init, keyed), CommaPieces(init));
        ConcatAppend(ItemPieces(init, keyed) + CommaPieces(init), KeyPieces(key, keyed) + Pieces(value));
        var p, k, t := PrintItems(init, keyed) + Separator(init), KeyText(key, keyed), Print(value);
        assert p + (k + t) == p + k + t;
    }
  }

  lemma NoPieces()
    ensures Concat([]) == ""
  {
  }

  lemma CommaText(init: Values)
    ensures Concat(CommaPieces(init)) == Separator(init)
  {
    ConcatOne(",");
  }

  lemma KeyPiecesText(key: string, keyed: bool)
    ensures Concat(KeyPieces(key, keyed)) == KeyText(key, keyed)
  {
    hide QuotePieces, Quote;
    if keyed {
      QuoteText(key);
      ConcatAppend(QuotePieces(key), [":"]);
      ConcatOne(":");
    }
  }
}
