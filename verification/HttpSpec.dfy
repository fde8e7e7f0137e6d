/** What the request parser computes, as a function of the bytes not yet consumed.

    `Step` looks at one line, one chunk or one piece of a body; `Run` repeats it
    for as long as it can.  Both see only the remaining input, never how it
    arrived, and the line parsers see only their line. */
module HttpSpec {
  import opened Text

  const MAX_HEADERS: nat := 128
  const MAX_BODY_SIZE: nat := 0x400_0000
  const MAX_CHUNK_SIZE: nat := 0x10_0000
  const MAX_URL_SIZE: nat := 4096
  const MAX_METHOD_SIZE: nat := 16
  const MAX_HTTP_VERSION_SIZE: nat := 8
  const MAX_HEADER_NAME_SIZE: nat := 256
  const MAX_HEADER_VALUE_SIZE: nat := 4096
  const MAX_HEADER_LINE_SIZE: nat := 8192
  const ULL_LIMIT: nat := 0x1_0000_0000_0000_0000

  // ---------------------------------------------------------------------
  // Parser state

  datatype Request = Request(verb: string, uri: string, version: string, headers: map<string, string>, body: string)

  datatype Phase = RequestLine | Headers | Body | Done

  /** `rest` is the input that has arrived and is not consumed.  In a chunked body,
      contentLength is the size of the chunk being read, and 0 before a size line. */
  datatype Progress =
    | Failed
    | Active(phase: Phase, rest: string, req: Request, contentLength: nat, chunked: bool)

  const EMPTY_REQUEST := Request("", "", "", map[], "")
  const START := Active(RequestLine, "", EMPTY_REQUEST, 0, false)

  /** Halt: nothing more can be done with the input at hand. */
  datatype StepResult = Halt | Next(p: Progress)

  // ---------------------------------------------------------------------
  // Lines

  /** `method SP uri SP version`, each part within its length limit. */
  function ParseRequestLine(line: string): Option<(string, string, string)> {
    var s1 := IndexOf(line, ' ');
    if s1 < 1 || s1 > MAX_METHOD_SIZE then None
    else
      match ParseTarget(line[s1 + 1..])
      case None => None
      case Some((uri, version)) => Some((line[..s1], uri, version))
  }

  /** What follows the first blank of a request line: `uri SP version`. */
  function ParseTarget(tail: string): Option<(string, string)> {
    var s2 := IndexOf(tail, ' ');
    if s2 < 1 || s2 > MAX_URL_SIZE then None
    else
      var version := tail[s2 + 1..];
      if version == "" || |version| > MAX_HTTP_VERSION_SIZE then None else Some((tail[..s2], version))
  }

  /** `name : value`, both trimmed, the name in lower case. */
  function ParseHeaderLine(line: string): Option<(string, string)> {
    var c := IndexOf(line, ':');
    if c < 0 then None
    else
      var name := Trim(line[..c]);
      var value := Trim(line[c + 1..]);
      if name == "" || |name| > MAX_HEADER_NAME_SIZE || |value| > MAX_HEADER_VALUE_SIZE then None
      else Some((Lower(name), value))
  }

  /** The library's conversion of a decimal string, required to use up the whole string:
      optional blanks and sign, then digits; a minus sign negates modulo 2^64. */
  function ParseUnsigned(s: string): Option<nat> {
    var t := TrimLeft(s);
    var signed := t != "" && (t[0] == '+' || t[0] == '-');
    var digits := if signed then t[1..] else t;
    if s == "" then Some(0)
    else if digits == "" || exists c | c in digits :: !IsDigit(c) then None
    else
      var v := Digits(digits, 10);
      if v >= ULL_LIMIT then None
      else if signed && t[0] == '-' && v > 0 then Some(ULL_LIMIT - v)
      else Some(v)
  }

  /** Framing of the body: its length, and whether it is chunked. */
  function ParseFraming(headers: map<string, string>): Option<(nat, bool)> {
    if "content-length" in headers then
      match ParseUnsigned(headers["content-length"])
      case None => None
      case Some(n) => if n > MAX_BODY_SIZE then None else Some((n, false))
    else
      Some((0, "transfer-encoding" in headers && Lower(headers["transfer-encoding"]) == "chunked"))
  }

  /** Size announced by a chunk-size line, up to an optional extension. */
  function ParseChunkSize(line: string, bodyLength: nat): Option<nat> {
    if line == "" || |line| >= 32 then None
    else
      var semi := IndexOf(line, ';');
      var hex := if semi < 0 then line else line[..semi];
      if exists c | c in hex :: !IsHexDigit(c) then None
      else
        var v := Digits(hex, 16);
        if v >= ULL_LIMIT || v > MAX_CHUNK_SIZE || bodyLength + v > MAX_BODY_SIZE then None
        else Some(v)
  }

  // ---------------------------------------------------------------------
  // Steps

  function StepRequestLine(p: Progress): StepResult
    requires p.Active? && p.phase == RequestLine
  {
    var e := IndexOf(p.rest, '\n');
    if e < 0 then Halt
    else if e > MAX_HEADER_LINE_SIZE then Next(Failed)
    else
      match ParseRequestLine(StripCR(p.rest[..e]))
      case None => Next(Failed)
      case Some((m, u, v)) =>
        Next(p.(phase := Headers, rest := p.rest[e + 1..], req := p.req.(verb := m, uri := u, version := v)))
  }

  function EndOfHeaders(p: Progress, rest: string): Progress
    requires p.Active?
  {
    match ParseFraming(p.req.headers)
    case None => Failed
    case Some((n, chunked)) =>
      p.(phase := if n > 0 || chunked then Body else Done, rest := rest, contentLength := n, chunked := chunked)
  }

  function StepHeaders(p: Progress): StepResult
    requires p.Active? && p.phase == Headers
  {
    var e := IndexOf(p.rest, '\n');
    if e < 0 then Halt
    else if e > MAX_HEADER_LINE_SIZE then Next(Failed)
    else if StripCR(p.rest[..e]) == "" then Next(EndOfHeaders(p, p.rest[e + 1..]))
    else
      match ParseHeaderLine(p.rest[..e])
      case None => Next(Failed)
      case Some((name, value)) =>
        var headers := p.req.headers[name := value];
        if |headers| > MAX_HEADERS then Next(Failed)
        else Next(p.(rest := p.rest[e + 1..], req := p.req.(headers := headers)))
  }

  /** A body of known length takes what is there, up to what is missing. */
  function StepPlainBody(p: Progress): StepResult
    requires p.Active? && p.phase == Body && !p.chunked
  {
    var missing := p.contentLength - |p.req.body|;
    if p.rest == "" || missing < 0 then Halt
    else
      var n := if missing < |p.rest| then missing else |p.rest|;
      Next(p.(phase := if n == missing then Done else Body,
              rest := p.rest[n..],
              req := p.req.(body := p.req.body + p.rest[..n])))
  }

  function StepChunkSize(p: Progress): StepResult
    requires p.Active? && p.phase == Body && p.chunked && p.contentLength == 0
  {
    var e := IndexOf(p.rest, '\n');
    if e < 0 then Halt
    else
      match ParseChunkSize(StripCR(p.rest[..e]), |p.req.body|)
      case None => Next(Failed)
      case Some(n) => Next(p.(phase := if n == 0 then Done else Body, rest := p.rest[e + 1..], contentLength := n))
  }

  function StepChunkData(p: Progress): StepResult
    requires p.Active? && p.phase == Body && p.chunked && p.contentLength > 0
  {
    var n := p.contentLength;
    if |p.rest| < n + 2 then Halt
    else if p.rest[n..n + 2] != "\r\n" then Next(Failed)
    else Next(p.(rest := p.rest[n + 2..], req := p.req.(body := p.req.body + p.rest[..n]), contentLength := 0))
  }

  function Step(p: Progress): (r: StepResult)
    ensures r.Next? && r.p.Active? ==> p.Active? && |r.p.rest| < |p.rest|
  {
    if p.Failed? then Halt
    else match p.phase
      case RequestLine => StepRequestLine(p)
      case Headers => StepHeaders(p)
      case Body =>
        if !p.chunked then
          if p.contentLength == |p.req.body| then Halt else StepPlainBody(p)
        else if p.contentLength == 0 then StepChunkSize(p)
        else StepChunkData(p)
      case Done => Halt
  }

  /** Everything that can be done with the input at hand. */
  function Run(p: Progress): Progress
    decreases if p.Active? then |p.rest| + 1 else 0
  {
    match Step(p)
    case Halt => p
    case Next(q) => Run(q)
  }

  /** More input arrives. */
  function Arrive(p: Progress, data: string): Progress {
    if p.Active? then p.(rest := p.rest + data) else p
  }

  function Feed(p: Progress, data: string): Progress {
    Run(Arrive(p, data))
  }

  function ReturnCode(p: Progress): int {
    if p.Failed? then -1 else if p.phase == Done then 1 else 0
  }
}
