/** The resumable request parser, updated in place by each call of `Feed`.

    Line ends, blanks and colons are searched for in the whole buffer, not in the
    line; differences of positions are unsigned and wrap around.  The lemmas show
    that every search that leaves its line ends in a rejection, so that the parser
    computes what the line parsers of HttpSpec compute. */
module HttpParser {
  import opened Text
  import opened HttpSpec
  import opened HttpSplit
  import opened StringBuf

  const SIZE_LIMIT: int := 0x1_0000_0000_0000_0000
  const SSIZE_MAX: int := 0x7fff_ffff_ffff_ffff

  /** Subtraction of unsigned 64-bit sizes. */
  function SizeSub(a: int, b: int): (r: nat)
    ensures r < SIZE_LIMIT
    ensures 0 <= a - b < SIZE_LIMIT ==> r == a - b
    ensures -SIZE_LIMIT <= a - b < 0 ==> r == a - b + SIZE_LIMIT
  {
    (a - b) % SIZE_LIMIT
  }

  lemma SizeSubWraps(a: nat, b: nat)
    requires a < b <= SSIZE_MAX
    ensures SizeSub(a, b) > SSIZE_MAX
  {
  }

  // ---------------------------------------------------------------------
  // Searches that may leave the line

  lemma SearchInLine(buf: string, c: char, start: nat, end: nat)
    requires start <= end <= |buf|
    ensures var r := IndexFrom(buf, c, start);
            IndexOf(buf[start..end], c) == if 0 <= r < end then r - start else -1
  {
    var r := IndexFrom(buf, c, start);
    var t, line := buf[start..], buf[start..end];
    if 0 <= r < end {
      assert line[..r - start] == t[..r - start];
      IndexOfIs(line, c, r - start);
    } else {
      forall i | 0 <= i < |line|
        ensures line[i] != c
      {
        assert line[i] == t[i];
        if r >= 0 {
          assert t[i] == t[..r - start][i];
        }
      }
    }
  }

  /** The request line as the parser reads it: blanks are searched for in the whole buffer. */
  function ScanRequestLine(buf: string, pos: nat, lineLen: nat): Option<(string, string, string)>
    requires pos + lineLen <= |buf| <= SSIZE_MAX
  {
    var s1 := IndexFrom(buf, ' ', pos);
    if s1 < 0 || s1 - pos == 0 || s1 - pos > MAX_METHOD_SIZE then None
    else
      match ScanTarget(buf, s1, pos + lineLen)
      case None => None
      case Some((uri, version)) => Some((buf[pos..s1], uri, version))
  }

  function ScanTarget(buf: string, s1: nat, end: nat): Option<(string, string)>
    requires s1 < |buf| && end <= |buf| <= SSIZE_MAX
  {
    var s2 := IndexFrom(buf, ' ', s1 + 1);
    if s2 < 0 || s2 - (s1 + 1) == 0 || s2 - (s1 + 1) > MAX_URL_SIZE then None
    else
      var versionLen := SizeSub(end, s2 + 1);
      if versionLen == 0 || versionLen > MAX_HTTP_VERSION_SIZE then None
      else Some((buf[s1 + 1..s2], buf[s2 + 1..s2 + 1 + versionLen]))
  }

  /** A version of at most eight bytes is never read past the line. */
  lemma VersionInBuffer(size: nat, end: nat, s2: nat)
    requires end <= size <= SSIZE_MAX && s2 < size
    requires SizeSub(end, s2 + 1) <= MAX_HTTP_VERSION_SIZE
    ensures s2 + 1 + SizeSub(end, s2 + 1) == end
  {
    if end < s2 + 1 {
      SizeSubWraps(end, s2 + 1);
      assert false;
    }
  }

  /** A value that is not too long lies in its line. */
  lemma ValueInBuffer(start: nat, end: nat, lineEnd: nat)
    requires end <= lineEnd <= SSIZE_MAX && start <= SSIZE_MAX
    requires SizeSub(end, start) <= MAX_HEADER_VALUE_SIZE
    ensures start <= end && SizeSub(end, start) == end - start
  {
    if end < start {
      SizeSubWraps(end, start);
      assert false;
    }
  }

  /** A search from inside a line: what it finds in the line, and where it ends otherwise. */
  lemma SearchTail(buf: string, c: char, start: nat, end: nat)
    requires start <= end <= |buf|
    ensures var r := IndexFrom(buf, c, start); var tail := buf[start..end]; var k := IndexOf(tail, c);
            && (k >= 0 ==> r == start + k && tail[..k] == buf[start..r] && tail[k + 1..] == buf[r + 1..end])
            && (k < 0 ==> r < 0 || r >= end)
  {
    SearchInLine(buf, c, start, end);
  }

  /** A second blank past the line: the version length wraps around and is rejected. */
  lemma TargetOutside(buf: string, s1: nat, end: nat)
    requires s1 < |buf| && end <= |buf| <= SSIZE_MAX
    requires var s2 := IndexFrom(buf, ' ', s1 + 1); s2 < 0 || s2 >= end
    ensures ScanTarget(buf, s1, end) == None
  {
    hide IndexFrom, SizeSub;
    var s2 := IndexFrom(buf, ' ', s1 + 1);
    if s2 >= 0 {
      SizeSubWraps(end, s2 + 1);
    }
  }

  lemma TargetInside(buf: string, s1: nat, end: nat)
    requires s1 < end <= |buf| <= SSIZE_MAX
    ensures ScanTarget(buf, s1, end) == ParseTarget(buf[s1 + 1..end])
  {
    hide IndexOf, IndexFrom, SizeSub;
    SearchTail(buf, ' ', s1 + 1, end);
    var s2 := IndexFrom(buf, ' ', s1 + 1);
    if s2 < 0 || s2 >= end {
      TargetOutside(buf, s1, end);
    }
  }

  lemma FirstBlankOutside(buf: string, pos: nat, lineLen: nat)
    requires pos + lineLen <= |buf| <= SSIZE_MAX
    requires var s1 := IndexFrom(buf, ' ', pos); s1 < 0 || s1 >= pos + lineLen
    ensures ScanRequestLine(buf, pos, lineLen) == None == ParseRequestLine(buf[pos..pos + lineLen])
  {
    hide IndexOf, IndexFrom, ScanTarget, ParseTarget;
    SearchTail(buf, ' ', pos, pos + lineLen);
    var s1 := IndexFrom(buf, ' ', pos);
    if s1 >= 0 {
      TargetOutside(buf, s1, pos + lineLen);
    }
  }

  lemma FirstBlankInside(buf: string, pos: nat, lineLen: nat)
    requires pos + lineLen <= |buf| <= SSIZE_MAX
    requires pos <= IndexFrom(buf, ' ', pos) < pos + lineLen
    ensures ScanRequestLine(buf, pos, lineLen) == ParseRequestLine(buf[pos..pos + lineLen])
  {
    hide IndexOf, IndexFrom, ScanTarget, ParseTarget;
    SearchTail(buf, ' ', pos, pos + lineLen);
    TargetInside(buf, IndexFrom(buf, ' ', pos), pos + lineLen);
  }

  lemma ScanIsParse(buf: string, pos: nat, lineLen: nat)
    requires pos + lineLen <= |buf| <= SSIZE_MAX
    ensures ScanRequestLine(buf, pos, lineLen) == ParseRequestLine(buf[pos..pos + lineLen])
  {
    hide ScanRequestLine, ParseRequestLine;
    var s1 := IndexFrom(buf, ' ', pos);
    if 0 <= s1 < pos + lineLen {
      FirstBlankInside(buf, pos, lineLen);
    } else {
      FirstBlankOutside(buf, pos, lineLen);
    }
  }

  /** The header line as the parser reads it: the colon is searched for in the whole buffer. */
  function ScanHeaderLine(buf: string, pos: nat, lineEnd: nat): Option<(string, string)>
    requires pos <= lineEnd < |buf| <= SSIZE_MAX
  {
    var c := IndexFrom(buf, ':', pos);
    if c < 0 then None
    else HeaderParts(Trim(buf[pos..c]), ScanValue(buf, c, lineEnd))
  }

  /** The trimmed value; a colon past the line gives a length that wraps around. */
  function ScanValue(buf: string, c: nat, lineEnd: nat): Option<string>
    requires c < |buf| && lineEnd < |buf| <= SSIZE_MAX
  {
    var valueLen := if c + 1 <= lineEnd then |Trim(buf[c + 1..lineEnd])| else SizeSub(lineEnd, c + 1);
    if valueLen > MAX_HEADER_VALUE_SIZE || lineEnd < c + 1 then None else Some(Trim(buf[c + 1..lineEnd]))
  }

  function HeaderParts(name: string, value: Option<string>): Option<(string, string)> {
    if name == "" || |name| > MAX_HEADER_NAME_SIZE || value.None? then None
    else Some((Lower(name), value.value))
  }

  /** The length test alone rejects a colon past the line. */
  lemma ColonOutside(c: nat, lineEnd: nat)
    requires lineEnd < c + 1 <= SSIZE_MAX
    ensures SizeSub(lineEnd, c + 1) > MAX_HEADER_VALUE_SIZE
  {
    SizeSubWraps(lineEnd, c + 1);
  }

  lemma ScanIsParseHeader(buf: string, pos: nat, lineEnd: nat)
    requires pos <= lineEnd < |buf| <= SSIZE_MAX && buf[lineEnd] == '\n'
    ensures ScanHeaderLine(buf, pos, lineEnd) == ParseHeaderLine(buf[pos..lineEnd])
  {
    hide IndexFrom, IndexOf, SizeSub, Trim, Lower;
    var c := IndexFrom(buf, ':', pos);
    SearchTail(buf, ':', pos, lineEnd);
    if c >= lineEnd {
      ColonOutside(c, lineEnd);
    }
  }

  // ---------------------------------------------------------------------
  // The steps, in terms of positions in the buffer

  ghost predicate RestOf(p: Progress, buf: string, pos: nat) {
    pos <= |buf| && p.Active? && p.rest == buf[pos..]
  }

  lemma RequestLineStep(p: Progress, buf: string, pos: nat)
    requires RestOf(p, buf, pos) && p.phase == RequestLine
    ensures var lineEnd := IndexFrom(buf, '\n', pos);
            Step(p) ==
            if lineEnd < 0 then Halt
            else if lineEnd - pos > MAX_HEADER_LINE_SIZE then Next(Failed)
            else match ParseRequestLine(StripCR(buf[pos..lineEnd]))
              case None => Next(Failed)
              case Some((m, u, v)) =>
                Next(p.(phase := Headers, rest := buf[lineEnd + 1..], req := p.req.(verb := m, uri := u, version := v)))
  {
    hide ParseRequestLine, StripCR, IndexOf;
    var e := IndexOf(buf[pos..], '\n');
    if e >= 0 {
      DropTake(buf, pos, e);
      DropDrop(buf, pos, e + 1);
    }
  }

  lemma HeadersStep(p: Progress, buf: string, pos: nat)
    requires RestOf(p, buf, pos) && p.phase == Headers
    ensures var lineEnd := IndexFrom(buf, '\n', pos);
            Step(p) ==
            if lineEnd < 0 then Halt
            else if lineEnd - pos > MAX_HEADER_LINE_SIZE then Next(Failed)
            else if StripCR(buf[pos..lineEnd]) == "" then Next(EndOfHeaders(p, buf[lineEnd + 1..]))
            else match ParseHeaderLine(buf[pos..lineEnd])
              case None => Next(Failed)
              case Some((name, value)) =>
                var headers := p.req.headers[name := value];
                if |headers| > MAX_HEADERS then Next(Failed)
                else Next(p.(rest := buf[lineEnd + 1..], req := p.req.(headers := headers)))
  {
    hide ParseHeaderLine, StripCR, IndexOf, EndOfHeaders;
    var e := IndexOf(buf[pos..], '\n');
    if e >= 0 {
      DropTake(buf, pos, e);
      DropDrop(buf, pos, e + 1);
    }
  }

  lemma ChunkSizeStep(p: Progress, buf: string, pos: nat)
    requires RestOf(p, buf, pos) && p.phase == Body && p.chunked && p.contentLength == 0
    ensures var lineEnd := IndexFrom(buf, '\n', pos);
            Step(p) ==
            if lineEnd < 0 then Halt
            else match ParseChunkSize(StripCR(buf[pos..lineEnd]), |p.req.body|)
              case None => Next(Failed)
              case Some(n) =>
                Next(p.(phase := if n == 0 then Done else Body, rest := buf[lineEnd + 1..], contentLength := n))
  {
    hide ParseChunkSize, StripCR, IndexOf;
    var e := IndexOf(buf[pos..], '\n');
    if e >= 0 {
      DropTake(buf, pos, e);
      DropDrop(buf, pos, e + 1);
    }
  }

  lemma ChunkDataStep(p: Progress, buf: string, pos: nat)
    requires RestOf(p, buf, pos) && p.phase == Body && p.chunked && p.contentLength > 0
    ensures var end := pos + p.contentLength;
            Step(p) ==
            if |buf| - pos < p.contentLength + 2 then Halt
            else if buf[end..end + 2] != "\r\n" then Next(Failed)
            else Next(p.(rest := buf[end + 2..], req := p.req.(body := p.req.body + buf[pos..end]), contentLength := 0))
  {
    var n := p.contentLength;
    if |buf| - pos >= n + 2 {
      DropTake(buf, pos, n);
      DropSlice(buf, pos, n, n + 2);
      DropDrop(buf, pos, n + 2);
    }
  }

  lemma PlainBodyStep(p: Progress, buf: string, pos: nat, n: nat)
    requires RestOf(p, buf, pos) && p.phase == Body && !p.chunked && |p.req.body| < p.contentLength && pos < |buf|
    requires var missing := p.contentLength - |p.req.body|; n == if missing < |buf| - pos then missing else |buf| - pos
    ensures Step(p) ==
            Next(p.(phase := if |p.req.body| + n == p.contentLength then Done else Body,
                    rest := buf[pos + n..], req := p.req.(body := p.req.body + buf[pos..pos + n])))
  {
    DropTake(buf, pos, n);
    DropDrop(buf, pos, n);
  }

  lemma RunOfNext(p: Progress)
    ensures Step(p).Next? ==> Run(p) == Run(Step(p).p)
  {
  }

  lemma RunHalted(p: Progress)
    ensures Step(p) == Halt ==> Run(p) == p
    ensures p.Failed? ==> Run(p) == p
  {
  }

  lemma NoInputHalts(p: Progress)
    ensures p.Active? && (p.rest == "" || p.phase == Done) ==> Step(p) == Halt
  {
  }

  datatype State = HP_REQUEST_LINE | HP_HEADERS | HP_BODY | HP_DONE | HP_ERROR

  /** What a handler tells the feeding loop: return 0 and wait, return -1, or go on. */
  datatype Outcome = NeedMore | Reject | Continue

  class HttpParser {
    var state: State
    const buffer: StringBuf
    var pos: nat
    var req: Request
    var contentLength: nat
    var chunked: bool

    constructor ()
      ensures Valid() && Abs() == START && fresh(buffer) && fresh(buffer.data)
      ensures buffer.Contents() == "" && buffer.data.Length == STRINGBUF_DEFAULT_CAP
    {
      state, pos, req, contentLength, chunked := HP_REQUEST_LINE, 0, EMPTY_REQUEST, 0, false;
      buffer := new StringBuf(0, STRINGBUF_MAX_CAP);
    }

    ghost function Repr(): set<object>
      reads this, buffer
    {
      {this, buffer, buffer.data}
    }

    /** A line is about to be read at pos: no line end is hidden just before it. */
    ghost predicate AtLineStart()
      reads this, buffer, buffer.data
      requires buffer.Valid()
    {
      pos == 0 || (pos <= buffer.size && buffer.Contents()[pos - 1] != '\r')
    }

    ghost predicate Valid()
      reads this, buffer, buffer.data
    {
      && buffer.Valid() && buffer.data.Length <= STRINGBUF_MAX_CAP == buffer.maxCapacity
      && pos <= buffer.size
      && (state == HP_REQUEST_LINE ==> AtLineStart())
      && (state == HP_HEADERS ==> AtLineStart())
      && (state == HP_BODY && chunked && contentLength == 0 ==> AtLineStart())
      && WithinLimits(Abs())
    }

    function PhaseOf(): Phase
      reads this
    {
      match state
      case HP_REQUEST_LINE => RequestLine
      case HP_HEADERS => Headers
      case HP_BODY => Body
      case _ => Done
    }

    /** The parser as HttpSpec sees it: once rejected, its fields no longer matter. */
    ghost function Abs(): Progress
      reads this, buffer, buffer.data
      requires buffer.Valid() && pos <= buffer.size
    {
      if state == HP_ERROR then Failed
      else Active(PhaseOf(), buffer.Contents()[pos..], req, contentLength, chunked)
    }

    /** Length of the line at pos that ends at lineEnd, without a carriage return. */
    method LineLength(lineEnd: nat) returns (lineLen: nat)
      requires Valid() && AtLineStart()
      requires lineEnd == IndexFrom(buffer.Contents(), '\n', pos)
      ensures pos + lineLen <= lineEnd
      ensures buffer.Contents()[pos..pos + lineLen] == StripCR(buffer.Contents()[pos..lineEnd])
    {
      ghost var buf := buffer.Contents();
      ghost var line := buf[pos..lineEnd];
      lineLen := lineEnd - pos;
      if lineLen > 0 {
        SliceTake(buf, pos, lineEnd, lineLen - 1);
        assert line[lineLen - 1] == buf[lineEnd - 1];
      }
      if lineEnd > 0 && buffer.At(lineEnd - 1) == '\r' {
        lineLen := SizeSub(lineLen, 1);
      }
    }

    /** Reads URI and version, or fails with the URI set. */
    method ReadTarget(space1: nat, lineLen: nat) returns (ok: bool)
      requires buffer.Valid() && pos + lineLen <= buffer.size <= SSIZE_MAX && space1 < buffer.size
      modifies `req
      ensures var scanned := ScanTarget(buffer.Contents(), space1, pos + lineLen);
              && (ok <==> scanned.Some?)
              && (ok ==> scanned.value == (req.uri, req.version))
      ensures req.verb == old(req.verb) && req.headers == old(req.headers) && req.body == old(req.body)
    {
      hide IndexFrom, SizeSub, OccursAt;
      var space2 := buffer.Find(space1 + 1, " ");
      if space2 == -1 {
        return false;
      }
      var uriLen := space2 - (space1 + 1);
      if uriLen == 0 || uriLen > MAX_URL_SIZE {
        return false;
      }
      var u := buffer.Copy(space1 + 1, space2);
      req := req.(uri := u);
      var versionLen := SizeSub(pos + lineLen, space2 + 1);
      if versionLen == 0 || versionLen > MAX_HTTP_VERSION_SIZE {
        return false;
      }
      VersionInBuffer(buffer.size, pos + lineLen, space2);
      var v := buffer.Copy(space2 + 1, space2 + 1 + versionLen);
      req := req.(version := v);
      return true;
    }

    /** Reads method, URI and version, or fails with some of them set. */
    method ReadRequestLine(lineLen: nat) returns (ok: bool)
      requires buffer.Valid() && pos + lineLen <= buffer.size <= SSIZE_MAX
      modifies `req
      ensures var scanned := ScanRequestLine(buffer.Contents(), pos, lineLen);
              && (ok <==> scanned.Some?)
              && (ok ==> scanned.value == (req.verb, req.uri, req.version))
      ensures req.headers == old(req.headers) && req.body == old(req.body)
    {
      hide IndexFrom, OccursAt, ScanTarget;
      var space1 := buffer.Find(pos, " ");
      if space1 == -1 {
        return false;
      }
      var methodLen := space1 - pos;
      if methodLen == 0 || methodLen > MAX_METHOD_SIZE {
        return false;
      }
      var m := buffer.Copy(pos, space1);
      req := req.(verb := m);
      ok := ReadTarget(space1, lineLen);
    }

    method OnRequestLine() returns (o: Outcome)
      requires Valid() && state == HP_REQUEST_LINE
      modifies `state, `pos, `req
      ensures Valid()
      ensures o.NeedMore? ==> Abs() == old(Abs()) && Step(Abs()) == Halt
      ensures !o.NeedMore? ==> Step(old(Abs())) == Next(Abs())
      ensures o.Reject? <==> state == HP_ERROR
      ensures o.Continue? ==> pos > old(pos)
    {
      hide ScanRequestLine, ParseRequestLine, StripCR, WithinLimits, Step, IndexFrom;
      ghost var buf := buffer.Contents();
      StepKeepsLimits(Abs());
      RequestLineStep(Abs(), buf, pos);
      var lineEnd := buffer.MemChr('\n', pos);
      if lineEnd == -1 {
        return NeedMore;
      }
      if lineEnd - pos > MAX_HEADER_LINE_SIZE {
        state := HP_ERROR;
        return Reject;
      }
      var lineLen := LineLength(lineEnd);
      ScanIsParse(buf, pos, lineLen);
      var ok := ReadRequestLine(lineLen);
      if !ok {
        state := HP_ERROR;
        return Reject;
      }
      pos := lineEnd + 1;
      state := HP_HEADERS;
      return Continue;
    }

    method SkipLeft(start: nat, end: nat) returns (a: nat)
      requires buffer.Valid() && end <= buffer.size
      ensures start <= end ==> start <= a <= end && buffer.Contents()[a..end] == TrimLeft(buffer.Contents()[start..end])
      ensures start > end ==> a == start
    {
      a := start;
      ghost var buf := buffer.Contents();
      while a < end && IsSpace(buffer.At(a))
        invariant start <= end ==> start <= a <= end && TrimLeft(buf[a..end]) == TrimLeft(buf[start..end])
        invariant start > end ==> a == start
      {
        SliceDrop(buf, a, end, 1);
        a := a + 1;
      }
      assert a < end ==> !IsSpace(buf[a..end][0]);
    }

    method SkipRight(start: nat, end: nat) returns (b: nat)
      requires buffer.Valid() && end <= buffer.size
      ensures start <= end ==> start <= b <= end && buffer.Contents()[start..b] == TrimRight(buffer.Contents()[start..end])
      ensures start > end ==> b == end
    {
      b := end;
      ghost var buf := buffer.Contents();
      while b > start && IsSpace(buffer.At(b - 1))
        invariant start <= end ==> start <= b <= end && TrimRight(buf[start..b]) == TrimRight(buf[start..end])
        invariant start > end ==> b == end
      {
        SliceTake(buf, start, b, b - start - 1);
        b := b - 1;
      }
    }

    /** Narrows start .. end to leave out blanks at both ends; does nothing to an inverted range. */
    method TrimRange(start: nat, end: nat) returns (a: nat, b: nat)
      requires buffer.Valid() && end <= buffer.size
      ensures start <= end ==> start <= a <= b <= end && buffer.Contents()[a..b] == Trim(buffer.Contents()[start..end])
      ensures start > end ==> a == start && b == end
    {
      a := SkipLeft(start, end);
      b := SkipRight(a, end);
    }

    /** Reads the name and value of a header line. */
    method ReadHeaderLine(lineEnd: nat) returns (ok: bool, name: string, value: string)
      requires buffer.Valid() && pos <= lineEnd < buffer.size <= SSIZE_MAX
      ensures ScanHeaderLine(buffer.Contents(), pos, lineEnd) == if ok then Some((name, value)) else None
    {
      hide IndexFrom, SizeSub, Trim, Lower;
      ghost var buf := buffer.Contents();
      name, value := "", "";
      var colon := buffer.MemChr(':', pos);
      if colon == -1 {
        return false, name, value;
      }
      var nameStart, nameEnd := TrimRange(pos, colon);
      var valueStart, valueEnd := TrimRange(colon + 1, lineEnd);
      if nameEnd - nameStart == 0 || nameEnd - nameStart > MAX_HEADER_NAME_SIZE {
        return false, name, value;
      }
      var rawName := buffer.Copy(nameStart, nameEnd);
      name := Lower(rawName);
      var valueLen := SizeSub(valueEnd, valueStart);
      if valueLen > MAX_HEADER_VALUE_SIZE {
        return false, name, value;
      }
      ValueInBuffer(valueStart, valueEnd, lineEnd);
      value := buffer.Copy(valueStart, valueEnd);
      return true, name, value;
    }

    /** The blank line: decides how the body is framed. */
    method OnEndOfHeaders(lineEnd: nat) returns (o: Outcome)
      requires Valid() && state == HP_HEADERS && lineEnd < buffer.size && buffer.At(lineEnd) == '\n'
      requires WithinLimits(EndOfHeaders(Abs(), buffer.Contents()[lineEnd + 1..]))
      modifies `state, `pos, `contentLength, `chunked
      ensures Valid()
      ensures Abs() == EndOfHeaders(old(Abs()), buffer.Contents()[lineEnd + 1..]) && pos == lineEnd + 1
      ensures o == if state == HP_ERROR then Reject else Continue
    {
      hide ParseFraming, WithinLimits;
      pos := lineEnd + 1;
      match ParseFraming(req.headers) {
        case None =>
          state := HP_ERROR;
          return Reject;
        case Some((n, c)) =>
          contentLength, chunked := n, c;
          state := if n > 0 || c then HP_BODY else HP_DONE;
          return Continue;
      }
    }

    /** A header line with a name: stores it. */
    method OnHeaderLine(lineEnd: nat) returns (o: Outcome)
      requires Valid() && state == HP_HEADERS && pos <= lineEnd < buffer.size && buffer.At(lineEnd) == '\n'
      modifies `state, `pos, `req
      ensures buffer.Valid() && pos <= buffer.size && (state == HP_HEADERS ==> AtLineStart())
      ensures Abs() == match ParseHeaderLine(buffer.Contents()[old(pos)..lineEnd])
                       case None => Failed
                       case Some((name, value)) =>
                         var headers := old(req.headers)[name := value];
                         if |headers| > MAX_HEADERS then Failed
                         else old(Abs()).(rest := buffer.Contents()[lineEnd + 1..], req := old(req).(headers := headers))
      ensures o == if state == HP_ERROR then Reject else Continue
      ensures o.Continue? ==> state == HP_HEADERS && pos == lineEnd + 1
    {
      hide ScanHeaderLine, ParseHeaderLine, WithinLimits;
      ScanIsParseHeader(buffer.Contents(), pos, lineEnd);
      var ok, name, value := ReadHeaderLine(lineEnd);
      if !ok {
        state := HP_ERROR;
        return Reject;
      }
      req := req.(headers := req.headers[name := value]);
      if |req.headers| > MAX_HEADERS {
        state := HP_ERROR;
        return Reject;
      }
      pos := lineEnd + 1;
      return Continue;
    }

    method OnHeaders() returns (o: Outcome)
      requires Valid() && state == HP_HEADERS
      modifies `state, `pos, `req, `contentLength, `chunked
      ensures Valid()
      ensures o.NeedMore? ==> Abs() == old(Abs()) && Step(Abs()) == Halt
      ensures !o.NeedMore? ==> Step(old(Abs())) == Next(Abs())
      ensures o.Reject? <==> state == HP_ERROR
      ensures o.Continue? ==> pos > old(pos)
    {
      hide ParseHeaderLine, StripCR, WithinLimits, Step, EndOfHeaders, IndexFrom;
      StepKeepsLimits(Abs());
      HeadersStep(Abs(), buffer.Contents(), pos);
      var lineEnd := buffer.MemChr('\n', pos);
      if lineEnd == -1 {
        return NeedMore;
      }
      if lineEnd - pos > MAX_HEADER_LINE_SIZE {
        state := HP_ERROR;
        return Reject;
      }
      var lineLen := LineLength(lineEnd);
      if lineLen == 0 {
        o := OnEndOfHeaders(lineEnd);
      } else {
        o := OnHeaderLine(lineEnd);
      }
    }

    /** Takes what is there of a body of known length. */
    method OnPlainBody(buflen: nat) returns (o: Outcome)
      requires Valid() && state == HP_BODY && !chunked && buflen == buffer.size && pos < buflen
      modifies `state, `pos, `req
      ensures Valid() && Step(old(Abs())) == Next(Abs())
      ensures o == Continue && state in {HP_BODY, HP_DONE}
      ensures state == HP_BODY ==> pos == buflen
    {
      hide Step;
      ghost var buf := buffer.Contents();
      StepKeepsLimits(Abs());
      var remaining := SizeSub(contentLength, |req.body|);
      var avail := buflen - pos;
      var consume := if remaining < avail then remaining else avail;
      if consume > MAX_BODY_SIZE || |req.body| > MAX_BODY_SIZE - consume {
        assert false;
      }
      PlainBodyStep(Abs(), buf, pos, consume);
      var taken := buffer.Copy(pos, pos + consume);
      req := req.(body := req.body + taken);
      pos := pos + consume;
      if |req.body| == contentLength {
        state := HP_DONE;
      }
      return Continue;
    }

    method OnChunkSize() returns (o: Outcome)
      requires Valid() && state == HP_BODY && chunked && contentLength == 0
      modifies `state, `pos, `contentLength
      ensures Valid()
      ensures o.NeedMore? ==> Abs() == old(Abs()) && Step(Abs()) == Halt
      ensures !o.NeedMore? ==> Step(old(Abs())) == Next(Abs())
      ensures o.Reject? <==> state == HP_ERROR
      ensures o.Continue? ==> state in {HP_BODY, HP_DONE} && old(pos) < pos
    {
      hide ParseChunkSize, StripCR, WithinLimits, Step, IndexFrom;
      ghost var buf := buffer.Contents();
      StepKeepsLimits(Abs());
      ChunkSizeStep(Abs(), buf, pos);
      var lineEnd := buffer.MemChr('\n', pos);
      if lineEnd == -1 {
        return NeedMore;
      }
      var lineLen := LineLength(lineEnd);
      var line := buffer.Copy(pos, pos + lineLen);
      match ParseChunkSize(line, |req.body|) {
        case None =>
          state := HP_ERROR;
          return Reject;
        case Some(n) =>
          contentLength := n;
          if n == 0 {
            state := HP_DONE;
          }
          pos := lineEnd + 1;
          return Continue;
      }
    }

    method OnChunkData(buflen: nat) returns (o: Outcome)
      requires Valid() && state == HP_BODY && chunked && contentLength > 0 && buflen == buffer.size
      modifies `state, `pos, `req, `contentLength
      ensures Valid()
      ensures o.NeedMore? ==> Abs() == old(Abs()) && Step(Abs()) == Halt
      ensures !o.NeedMore? ==> Step(old(Abs())) == Next(Abs())
      ensures o.Reject? <==> state == HP_ERROR
      ensures o.Continue? ==> state == HP_BODY && old(pos) < pos
    {
      hide WithinLimits, Step;
      ghost var buf := buffer.Contents();
      StepKeepsLimits(Abs());
      ChunkDataStep(Abs(), buf, pos);
      var avail := buflen - pos;
      if avail < contentLength + 2 {
        return NeedMore;
      }
      var end := pos + contentLength;
      var mark := buffer.Copy(end, end + 2);
      if mark != "\r\n" {
        state := HP_ERROR;
        return Reject;
      }
      var toCopy := if contentLength < avail - 2 then contentLength else avail - 2;
      var taken := buffer.Copy(pos, pos + toCopy);
      req := req.(body := req.body + taken);
      pos := pos + toCopy + 2;
      contentLength := 0;
      assert buf[pos - 1] == mark[1];
      return Continue;
    }

    /** Reads chunks while there is input. */
    method OnChunks(buflen: nat) returns (o: Outcome)
      requires Valid() && state == HP_BODY && chunked && buflen == buffer.size
      modifies `state, `pos, `req, `contentLength
      ensures Valid() && Run(Abs()) == Run(old(Abs()))
      ensures o.NeedMore? ==> Step(Abs()) == Halt && state == HP_BODY
      ensures o.Reject? <==> state == HP_ERROR
      ensures o.Continue? ==> state == HP_DONE || (state == HP_BODY && pos == buflen)
    {
      hide Step, WithinLimits;
      while pos < buflen
        invariant Valid() && state == HP_BODY && chunked
        invariant Run(Abs()) == Run(old(Abs()))
        decreases buflen - pos
      {
        if contentLength == 0 {
          o := OnChunkSize();
          if o.Continue? && state == HP_DONE {
            break;
          }
        } else {
          o := OnChunkData(buflen);
        }
        if !o.Continue? {
          return;
        }
      }
      return Continue;
    }

    /** The body phase.  Bytes are shifted to the front of the buffer only when the message
        is done, so the caller's copy of the buffer length is not used again. */
    method OnBody(buflen: nat) returns (o: Outcome)
      requires Valid() && state == HP_BODY && buflen == buffer.size && pos < buflen
      modifies this, buffer, buffer.data
      ensures Valid() && buffer.data == old(buffer.data) && buffer.size <= old(buffer.size)
      ensures Run(Abs()) == Run(old(Abs()))
      ensures o.NeedMore? ==> Step(Abs()) == Halt && state == HP_BODY
      ensures o.Reject? <==> state == HP_ERROR
      ensures o.Continue? && state != HP_DONE ==> buffer.size == buflen == pos
    {
      hide Step, WithinLimits, Run;
      if !chunked {
        RunOfNext(Abs());
        o := OnPlainBody(buflen);
      } else {
        o := OnChunks(buflen);
      }
      if o.Continue? && pos > 0 && pos < buflen {
        ghost var buf := buffer.Contents();
        buffer.Consume(pos);
        assert buf[pos..] == buffer.Contents()[0..];
        pos := 0;
      }
    }

    /** Takes the new piece into the buffer, or rejects for lack of room. */
    method AppendInput(data: string) returns (ok: bool)
      requires Valid()
      modifies `state, buffer, buffer.data
      ensures Valid() && (buffer.data == old(buffer.data) || fresh(buffer.data))
      ensures ok <==> data != "" && CanReserve(STRINGBUF_MAX_CAP, old(buffer.data.Length), old(buffer.size) + |data|)
      ensures Abs() == if ok then Arrive(old(Abs()), data) else Failed
      ensures buffer.Contents() == if ok then old(buffer.Contents()) + data else old(buffer.Contents())
      ensures buffer.data.Length == if data == "" then old(buffer.data.Length)
                                    else CapacityAfter(STRINGBUF_MAX_CAP, old(buffer.data.Length), old(buffer.size) + |data|)
    {
      ghost var before := buffer.Contents();
      ok := buffer.Append(data);
      if !ok {
        state := HP_ERROR;
      } else {
        assert buffer.Contents()[pos..] == before[pos..] + data;
        assert pos > 0 ==> buffer.Contents()[pos - 1] == before[pos - 1];
      }
    }

    /** One call of the parser: -1 rejected, 0 more input wanted, 1 message complete. */
    method Feed(data: string) returns (r: int)
      requires Valid()
      modifies this, buffer, buffer.data
      ensures Valid() && (buffer.data == old(buffer.data) || fresh(buffer.data))
      ensures r == ReturnCode(Abs())
      ensures data != "" && CanReserve(STRINGBUF_MAX_CAP, old(buffer.data.Length), old(buffer.size) + |data|) ==>
                Abs() == HttpSpec.Feed(old(Abs()), data)
      ensures data == "" || !CanReserve(STRINGBUF_MAX_CAP, old(buffer.data.Length), old(buffer.size) + |data|) ==> Abs() == Failed
      ensures buffer.size <= old(buffer.size) + |data|
      ensures buffer.data.Length == if data == "" then old(buffer.data.Length)
                                    else CapacityAfter(STRINGBUF_MAX_CAP, old(buffer.data.Length), old(buffer.size) + |data|)
    {
      hide Step, WithinLimits, Run;
      var ok := AppendInput(data);
      if !ok {
        return -1;
      }
      ghost var start, block := Abs(), buffer.data;
      var buflen := buffer.size;
      while state != HP_DONE && state != HP_ERROR && pos < buflen
        invariant Valid() && buffer.data == block && buffer.size <= buflen
        invariant Run(Abs()) == Run(start)
        invariant state != HP_DONE && state != HP_ERROR ==> buffer.size == buflen
        decreases if state == HP_DONE || state == HP_ERROR then 0 else buflen - pos + 1
      {
        RunOfNext(Abs());
        var o;
        if state == HP_REQUEST_LINE {
          o := OnRequestLine();
        } else if state == HP_HEADERS {
          o := OnHeaders();
        } else {
          o := OnBody(buflen);
        }
        if o.NeedMore? {
          RunHalted(Abs());
          return 0;
        }
        if o.Reject? {
          RunHalted(Abs());
          return -1;
        }
      }
      NoInputHalts(Abs());
      RunHalted(Abs());
      return if state == HP_DONE then 1 else if state == HP_ERROR then -1 else 0;
    }
  }

  /** A message is parsed the same however it is cut into pieces: unless a piece does not fit in
      the buffer, which rejects the message, the outcome depends on the concatenation alone. All
      pieces of a message of at most half the maximal capacity, less one, fit. */
  method FeedAll(pieces: seq<string>) returns (p: HttpParser, r: int, fits: bool)
    ensures fresh(p) && p.Valid() && r == ReturnCode(p.Abs())
    ensures p.Abs() == if fits then HttpSpec.Feed(START, Concat(pieces)) else Failed
    ensures Small(pieces) ==> fits
  {
    hide HttpSpec.Feed, WithinLimits, Concat, FeedPieces, CanReserve, Run, Small;
    p := new HttpParser();
    r, fits := 0, true;
    NoPieces();
    for n := 0 to |pieces|
      invariant fresh(p) && fresh(p.buffer) && fresh(p.buffer.data) && p.Valid()
      invariant p.buffer.size <= |Concat(pieces[..n])|
      invariant p.Abs() == if fits then FeedPieces(START, pieces[..n]) else Failed
      invariant r == ReturnCode(p.Abs())
      invariant Small(pieces) ==> fits
    {
      NextPiece(pieces, n);
      SmallFits(pieces, n, p.buffer.data.Length, p.buffer.size);
      FeedRejected(pieces[n]);
      fits := fits && pieces[n] != "" && CanReserve(STRINGBUF_MAX_CAP, p.buffer.data.Length, p.buffer.size + |pieces[n]|);
      r := p.Feed(pieces[n]);
    }
    assert pieces[..|pieces|] == pieces;
    SplitIndependence(pieces);
  }

  /** Non-empty pieces of at most half the maximal capacity, less one. */
  predicate Small(pieces: seq<string>) {
    |Concat(pieces)| <= STRINGBUF_MAX_CAP / 2 - 1 && forall i :: 0 <= i < |pieces| ==> pieces[i] != ""
  }

  lemma SmallFits(pieces: seq<string>, n: nat, capacity: nat, size: nat)
    requires n < |pieces| && size <= |Concat(pieces[..n])|
    ensures Small(pieces) ==> pieces[n] != "" && CanReserve(STRINGBUF_MAX_CAP, capacity, size + |pieces[n]|)
  {
    hide CanReserve, Concat;
    if Small(pieces) {
      NextPiece(pieces, n);
      ConcatGrows(pieces, n + 1);
      SmallAppendsFit(STRINGBUF_MAX_CAP, capacity, size + |pieces[n]|);
    }
  }

  lemma FeedRejected(data: string)
    ensures HttpSpec.Feed(Failed, data) == Failed
  {
  }

  lemma NoPieces()
    ensures FeedPieces(START, []) == START
  {
  }

  lemma NextPiece(pieces: seq<string>, n: nat)
    requires n < |pieces|
    ensures Concat(pieces[..n + 1]) == Concat(pieces[..n]) + pieces[n]
    ensures FeedPieces(START, pieces[..n + 1]) == HttpSpec.Feed(FeedPieces(START, pieces[..n]), pieces[n])
  {
    assert pieces[..n + 1][..n] == pieces[..n];
  }

  lemma {:induction false} ConcatGrows(pieces: seq<string>, n: nat)
    requires n <= |pieces|
    ensures |Concat(pieces[..n])| <= |Concat(pieces)|
    decreases |pieces| - n
  {
    if n < |pieces| {
      assert pieces[..n + 1][..n] == pieces[..n];
      ConcatGrows(pieces, n + 1);
    } else {
      assert pieces[..n] == pieces;
    }
  }
}
