/** The language that the streaming JSON parser accepts, and the array it makes of a text of it.

    A text is described by its syntax tree, with the position of every token.  Everything is said by the bytes
    at those positions, in literals, without the functions of the automaton. */
module CejsonGrammar {
  import opened Text
  import opened Numerals
  import opened CejsonSpec

  /** A value from the first of its bytes to behind the last one. */
  datatype Tree = Tree(kind: JsonType, start: nat, end: nat, items: Trees)

  /** Elements, or the values of fields with the extents of their keys. */
  datatype Trees = NoTrees | MoreTrees(init: Trees, keyStart: nat, keyEnd: nat, value: Tree)

  function CountTrees(items: Trees): nat {
    match items
    case NoTrees => 0
    case MoreTrees(init, _, _, _) => CountTrees(init) + 1
  }

  function Height(t: Tree): nat { if t.kind == JSON_ARRAY || t.kind == JSON_OBJECT then 1 + HeightOf(t.items) else 0 }

  function HeightOf(items: Trees): nat {
    match items
    case NoTrees => 0
    case MoreTrees(init, _, _, value) => if HeightOf(init) < Height(value) then Height(value) else HeightOf(init)
  }

  // ---------------------------------------------------------------------
  // Tokens

  /** Tab, line feed, carriage return and blank. */
  ghost predicate BlankByte(c: char) { c as int in {9, 10, 13, 32} }

  ghost predicate Gap(b: string, i: int, j: int) { 0 <= i <= j <= |b| && forall k :: i <= k < j ==> BlankByte(b[k]) }

  ghost predicate HexByte(c: char) { c in LOWER_HEX || c in UPPER_HEX }

  /** Inside of a string: any byte but quote and backslash, or an escape sequence of section 7 of RFC 8259. */
  ghost predicate StringBytes(b: string, i: nat, j: nat)
    decreases j - i
  {
    || i == j
    || (i < j <= |b| && b[i] != '"' && b[i] != '\\' && StringBytes(b, i + 1, j))
    || (i + 2 <= j <= |b| && b[i] == '\\' && b[i + 1] in "\"\\/bfnrt" && StringBytes(b, i + 2, j))
    || (i + 6 <= j <= |b| && b[i] == '\\' && b[i + 1] == 'u' && (forall k :: i + 2 <= k < i + 6 ==> HexByte(b[k])) && StringBytes(b, i + 6, j))
  }

  /** A string with its quotes. */
  ghost predicate StringForm(b: string, i: nat, j: nat) {
    i + 2 <= j <= |b| && b[i] == '"' && b[j - 1] == '"' && StringBytes(b, i + 1, j - 1)
  }

  /** The parts of a number: sign, digits, point and digits, and a mark, sign and digits of the exponent. */
  datatype NumParts = NumParts(sign: string, whole: string, point: string, fraction: string, mark: string, powerSign: string, power: string)

  ghost predicate AllDigits(s: string) { forall i :: 0 <= i < |s| ==> DigitByte(s[i]) }

  function Joined(p: NumParts): string { p.sign + p.whole + p.point + p.fraction + p.mark + p.powerSign + p.power }

  /** The beginning of a number. */
  ghost predicate NumBegun(p: NumParts) {
    && p.sign in {"", "-"} && p.point in {"", "."} && p.mark in {"", "e", "E"} && p.powerSign in {"", "+", "-"}
    && AllDigits(p.whole) && AllDigits(p.fraction) && AllDigits(p.power)
    && (p.sign == "" ==> p.whole != "")
    && (p.point == "" ==> p.fraction == "")
    && (p.mark == "" ==> p.powerSign == "" && p.power == "")
    && (p.mark != "" ==> p.whole != "" || p.fraction != "")
  }

  /** Numbers are those of RFC 8259, and more: leading zeros, nothing before the point, and nothing between point and exponent. */
  ghost predicate NumComplete(p: NumParts) {
    && NumBegun(p)
    && (if p.mark != "" then p.power != "" else if p.point != "" then p.fraction != "" else p.whole != "")
  }

  ghost predicate NumberForm(s: string, p: NumParts, kind: JsonType) {
    s == Joined(p) && NumComplete(p) && kind == if p.point != "" || p.mark != "" then JSON_NUMBER_FLOAT else JSON_NUMBER_INT
  }

  // ---------------------------------------------------------------------
  // Texts

  /** The bytes of a value. */
  ghost predicate Form(b: string, t: Tree)
    decreases t, 0
  {
    && t.start < t.end <= |b|
    && (t.kind != JSON_ARRAY && t.kind != JSON_OBJECT ==> t.items.NoTrees?)
    && match t.kind
       case JSON_NULL => b[t.start..t.end] == "null"
       case JSON_TRUE => b[t.start..t.end] == "true"
       case JSON_FALSE => b[t.start..t.end] == "false"
       case JSON_STRING => StringForm(b, t.start, t.end)
       case JSON_ARRAY => t.start + 2 <= t.end && b[t.start] == '[' && b[t.end - 1] == ']' && Within(b, t.start + 1, t.items, false, t.end - 1)
       case JSON_OBJECT => t.start + 2 <= t.end && b[t.start] == '{' && b[t.end - 1] == '}' && Within(b, t.start + 1, t.items, true, t.end - 1)
       case _ => exists p :: NumberForm(b[t.start..t.end], p, t.kind)
  }

  /** The items and nothing else from i to j; a comma may stand behind the last one. */
  ghost predicate Within(b: string, i: nat, items: Trees, keyed: bool, j: nat)
    decreases items, 1
  {
    Listed(b, i, items, keyed) && (Gap(b, EndOf(i, items), j) || (items.MoreTrees? && Comma(b, EndOf(i, items), j)))
  }

  function EndOf(i: nat, items: Trees): nat { if items.NoTrees? then i else items.value.end }

  /** A comma with blanks around it. */
  ghost predicate Comma(b: string, i: int, j: int) {
    exists k :: Gap(b, i, k) && k < |b| && b[k] == ',' && Gap(b, k + 1, j)
  }

  /** Items from i on with commas between them, up to the end of the last one; the colon stands right behind the key. */
  ghost predicate Listed(b: string, i: nat, items: Trees, keyed: bool)
    decreases items, 0
  {
    match items
    case NoTrees => true
    case MoreTrees(init, keyStart, keyEnd, value) =>
      && Listed(b, i, init, keyed) && Form(b, value)
      && Leads(b, EndOf(i, init), init, if keyed then keyStart else value.start)
      && (keyed ==> StringForm(b, keyStart, keyEnd) && keyEnd < |b| && b[keyEnd] == ':' && Gap(b, keyEnd + 1, value.start))
  }

  /** What stands between the end of one item and the beginning of the next. */
  ghost predicate Leads(b: string, i: nat, init: Trees, first: nat) {
    if init.NoTrees? then Gap(b, i, first) else Comma(b, i, first)
  }

  /** A text: at least one value, with commas between them. */
  ghost predicate Document(b: string, items: Trees) { items.MoreTrees? && Within(b, 0, items, false, |b|) }

  // ---------------------------------------------------------------------
  // The array

  /** What a node says: its type, the extent of its text, the number of its children and of the nodes below it. */
  datatype Mark = Mark(kind: JsonType, start: int, len: int, children: nat, below: nat)

  ghost predicate Marked(node: JsonNode, m: Mark) {
    && node.kind == m.kind && node.offset == m.start % 0x1_0000_0000 && node.len == m.len % 0x1_0000_0000 && node.children == m.children
    && node.strval == None
    && (m.kind == JSON_ARRAY || m.kind == JSON_OBJECT ==> node.hash == m.below % 0x1000_0000)
  }

  ghost predicate AllMarked(nodes: seq<JsonNode>, marks: seq<Mark>) {
    |nodes| == |marks| && forall i :: 0 <= i < |nodes| ==> Marked(nodes[i], marks[i])
  }

  function StringMark(start: int, end: int): Mark { Mark(JSON_STRING, start + 1, end - start - 2, 0, 0) }

  /** Preorder, a key before its value; of a string the bytes between the quotes. */
  function Marks(t: Tree): (r: seq<Mark>)
    ensures r != []
    decreases t, 0
  {
    if t.kind == JSON_STRING then [StringMark(t.start, t.end)]
    else
      var below := MarksOf(t.items, t.kind == JSON_OBJECT);
      [Mark(t.kind, t.start, t.end - t.start, CountTrees(t.items), |below|)] + below
  }

  function MarksOf(items: Trees, keyed: bool): seq<Mark>
    decreases items, 0
  {
    match items
    case NoTrees => []
    case MoreTrees(init, keyStart, keyEnd, value) =>
      MarksOf(init, keyed) + ((if keyed then [StringMark(keyStart, keyEnd)] else []) + Marks(value))
  }

  lemma MarkedConcat(p: seq<JsonNode>, q: seq<JsonNode>, m: seq<Mark>, n: seq<Mark>)
    requires AllMarked(p, m) && AllMarked(q, n)
    ensures AllMarked(p + q, m + n)
  {
    hide Marked;
  }
}
