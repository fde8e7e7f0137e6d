/** Trees of values as JSON text, compact or indented, and how such text is parsed. */
module DictJsonSpec {
  import opened Text
  import opened Dict

  const SAFE_INTEGER: int := 9007199254740991

  /** How the C library prints and reads a number. */
  datatype Numbers = Numbers(show: nat -> string, read: string -> nat)

  // ---------------------------------------------------------------------
  // Printing

  function Spaces(level: nat): string { if level == 0 then "" else Spaces(level - 1) + "  " }

  function NewLine(level: nat, pretty: bool): string { if pretty then "\n" + Spaces(level) else "" }

  function Print(v: Value, level: nat, pretty: bool, numbers: Numbers): string
    decreases v, 1
  {
    match v
    case Null => "null"
    case Bool(b) => if b then "true" else "false"
    case Number(bits) => numbers.show(bits)
    case Int64(n) => if -SAFE_INTEGER <= n <= SAFE_INTEGER then PrintInt(n) else Quote(PrintInt(n))
    case Str(s) => Quote(s)
    case Array(items) => PrintBracketed(items, true, level, pretty, numbers)
    case Object(fields) => PrintBracketed(fields, false, level, pretty, numbers)
  }

  function Open(isArray: bool): string { if isArray then "[" else "{" }
  function Close(isArray: bool): string { if isArray then "]" else "}" }

  /** New lines stand inside the brackets unless there is nothing between them. */
  function PrintBracketed(items: Items, isArray: bool, level: nat, pretty: bool, numbers: Numbers): string
    decreases items, 2
  {
    var line := NewLine(level, pretty && items.More?);
    Open(isArray) + line + PrintItems(items, isArray, level, pretty, numbers) + line + Close(isArray)
  }

  function Separator(init: Items, level: nat, pretty: bool): string { if init.Nothing? then "" else "," + NewLine(level, pretty) }

  function PrintKey(key: CString, isArray: bool, pretty: bool): string {
    if isArray then "" else Quote(key) + ":" + if pretty then " " else ""
  }

  function PrintItems(items: Items, isArray: bool, level: nat, pretty: bool, numbers: Numbers): string
    decreases items, 0
  {
    match items
    case Nothing => ""
    case More(init, key, value) =>
      PrintItems(init, isArray, level, pretty, numbers) + Separator(init, level, pretty) +
      (PrintKey(key, isArray, pretty) + Print(value, level + 1, pretty, numbers))
  }

  // ---------------------------------------------------------------------
  // Parsing

  datatype Parsed<T> = Parsed(value: T, end: nat)

  /** The end of a line comment. */
  function LineCommentEnd(b: string, pos: nat): (r: nat)
    requires pos <= |b|
    ensures pos <= r <= |b|
    decreases |b| - pos
  {
    if pos < |b| && b[pos] != '\n' && b[pos] != '\r' then LineCommentEnd(b, pos + 1) else pos
  }

  /** Behind a block comment; one that does not end takes all but the last byte. */
  function BlockCommentEnd(b: string, pos: nat): (r: nat)
    requires pos <= |b|
    ensures pos <= r <= |b|
    decreases |b| - pos
  {
    if pos + 1 < |b| then (if b[pos] == '*' && b[pos + 1] == '/' then pos + 2 else BlockCommentEnd(b, pos + 1)) else pos
  }

  function SkipSpace(b: string, pos: nat): (r: nat)
    requires pos <= |b|
    ensures pos <= r <= |b|
    decreases |b| - pos
  {
    if pos >= |b| then pos
    else if IsSpace(b[pos]) then SkipSpace(b, pos + 1)
    else if b[pos] == '/' && pos + 1 < |b| && b[pos + 1] == '/' then SkipSpace(b, LineCommentEnd(b, pos + 2))
    else if b[pos] == '/' && pos + 1 < |b| && b[pos + 1] == '*' then SkipSpace(b, BlockCommentEnd(b, pos + 2))
    else pos
  }

  /** What an escape sequence of one letter stands for. */
  function Unescape(c: char): Option<char> {
    if c == '"' || c == '\\' || c == '/' then Some(c)
    else if c == 'b' then Some(8 as char)
    else if c == 'f' then Some(12 as char)
    else if c == 'n' then Some('\n')
    else if c == 'r' then Some('\r')
    else if c == 't' then Some('\t')
    else None
  }

  /** Four hexadecimal digits; anything outside ASCII becomes a question mark. */
  function CodePoint(b: string, pos: nat): Option<char> {
    if pos + 4 > |b| || !(forall i :: pos <= i < pos + 4 ==> IsHexDigit(b[i])) then None
    else
      var n := Digits(b[pos..pos + 4], 16);
      Some(if n <= 0x7F then n as char else '?')
  }

  /** The characters of a string up to its closing quote, behind those read so far. */
  function ParseChars(b: string, pos: nat, text: string): (r: Option<Parsed<string>>)
    ensures r.Some? ==> pos < r.value.end <= |b|
    decreases |b| - pos
  {
    if pos >= |b| then None
    else if b[pos] == '"' then Some(Parsed(text, pos + 1))
    else if b[pos] == '\\' then
      if pos + 1 >= |b| then None
      else if b[pos + 1] == 'u' then
        var c := CodePoint(b, pos + 2);
        if c.None? then None else ParseChars(b, pos + 6, text + [c.value])
      else
        var c := Unescape(b[pos + 1]);
        if c.None? then None else ParseChars(b, pos + 2, text + [c.value])
    else if b[pos] < ' ' then None
    else ParseChars(b, pos + 1, text + [b[pos]])
  }

  function SkipDigits(b: string, pos: nat): (r: nat)
    requires pos <= |b|
    ensures pos <= r <= |b|
    decreases |b| - pos
  {
    if pos < |b| && IsDigit(b[pos]) then SkipDigits(b, pos + 1) else pos
  }

  function DigitAt(b: string, pos: nat): bool { pos < |b| && IsDigit(b[pos]) }

  function CharAt(b: string, pos: nat, c: char): bool { pos < |b| && b[pos] == c }

  /** The end of a number, if there is one at pos. */
  function NumberEnd(b: string, pos: nat): (r: Option<nat>)
    requires pos <= |b|
    ensures r.Some? ==> pos < r.value <= |b|
  {
    var p := if CharAt(b, pos, '-') then pos + 1 else pos;
    if !DigitAt(b, p) then None
    else
      var q := if b[p] == '0' then p + 1 else SkipDigits(b, p + 1);
      if CharAt(b, q, '.') && !DigitAt(b, q + 1) then None
      else
        var f := if CharAt(b, q, '.') then SkipDigits(b, q + 1) else q;
        if CharAt(b, f, 'e') || CharAt(b, f, 'E') then
          var x := if CharAt(b, f + 1, '+') || CharAt(b, f + 1, '-') then f + 2 else f + 1;
          if !DigitAt(b, x) then None else Some(SkipDigits(b, x))
        else Some(f)
  }

  function HasAt(b: string, pos: nat, word: string): bool { pos + |word| <= |b| && b[pos..pos + |word|] == word }

  function ParseScalar(b: string, pos: nat, numbers: Numbers): (r: Option<Parsed<Value>>)
    requires pos < |b|
    ensures r.Some? ==> pos < r.value.end <= |b|
  {
    if b[pos] == '"' then
      match ParseChars(b, pos + 1, "")
      case None => None
      case Some(s) => (var v := ReadString(s.value); if v.None? then None else Some(Parsed(v.value, s.end)))
    else if b[pos] == '-' || IsDigit(b[pos]) then
      match NumberEnd(b, pos)
      case None => None
      case Some(end) => if end - pos >= 64 then None else Some(Parsed(Number(numbers.read(b[pos..end])), end))
    else if HasAt(b, pos, "true") then Some(Parsed(Bool(true), pos + 4))
    else if HasAt(b, pos, "false") then Some(Parsed(Bool(false), pos + 5))
    else if HasAt(b, pos, "null") then Some(Parsed(Null, pos + 4))
    else None
  }

  function ParseValue(b: string, start: nat, numbers: Numbers): (r: Option<Parsed<Value>>)
    requires start <= |b|
    ensures r.Some? ==> start < r.value.end <= |b|
    decreases |b| - start, 1
  {
    var pos := SkipSpace(b, start);
    if pos >= |b| then None
    else if b[pos] == '{' || b[pos] == '[' then
      var isArray := b[pos] == '[';
      match ParseBracketed(b, pos + 1, isArray, numbers)
      case None => None
      case Some(r) => Some(Parsed(if isArray then Array(r.value) else Object(r.value), r.end))
    else ParseScalar(b, pos, numbers)
  }

  /** Behind an opening bracket. */
  function ParseBracketed(b: string, start: nat, isArray: bool, numbers: Numbers): (r: Option<Parsed<Items>>)
    requires start <= |b|
    ensures r.Some? ==> start < r.value.end <= |b|
    decreases |b| - start, 4
  {
    var pos := SkipSpace(b, start);
    if CharAt(b, pos, if isArray then ']' else '}') then Some(Parsed(Nothing, pos + 1)) else ParseItems(b, pos, Nothing, isArray, numbers)
  }

  /** Entries up to the closing bracket, behind those read so far. */
  function ParseItems(b: string, start: nat, items: Items, isArray: bool, numbers: Numbers): (r: Option<Parsed<Items>>)
    requires start <= |b|
    ensures r.Some? ==> start < r.value.end <= |b|
    decreases |b| - start, 3
  {
    match ParseEntry(b, start, items, isArray, numbers)
    case None => None
    case Some(e) =>
      var pos := SkipSpace(b, e.end);
      if CharAt(b, pos, ',') then ParseItems(b, pos + 1, e.value, isArray, numbers)
      else if CharAt(b, pos, if isArray then ']' else '}') then Some(Parsed(e.value, pos + 1))
      else None
  }

  function ParseEntry(b: string, start: nat, items: Items, isArray: bool, numbers: Numbers): (r: Option<Parsed<Items>>)
    requires start <= |b|
    ensures r.Some? ==> start < r.value.end <= |b|
    decreases |b| - start, 2
  {
    var pos := SkipSpace(b, start);
    if isArray then
      match ParseValue(b, pos, numbers)
      case None => None
      case Some(v) => Some(Parsed(More(items, "", v.value), v.end))
    else if !CharAt(b, pos, '"') then None
    else match ParseChars(b, pos + 1, "")
      case None => None
      case Some(key) =>
        var colon := SkipSpace(b, key.end);
        if !CharAt(b, colon, ':') then None
        else match ParseValue(b, SkipSpace(b, colon + 1), numbers)
          case None => None
          case Some(v) =>
            (match SetField(items, UpToZero(key.value), v.value)
             case None => None
             case Some(more) => Some(Parsed(more, v.end)))
  }

  /** A whole text. */
  function Parse(b: string, numbers: Numbers): Option<Value> {
    if b == "" then None
    else match ParseValue(b, SkipSpace(b, 0), numbers)
      case None => None
      case Some(r) => if SkipSpace(b, r.end) == |b| then Some(r.value) else None
  }
}
