/** Replies to DNS questions, and an independent reading of them by RFC 1035. */
module DnsMessage {
  import opened Text
  import opened DnsName
  import opened Numerals

  datatype RData =
    | A(addr: string)
    | NS(host: string)
    | CNAME(host: string)
    | PTR(host: string)
    | MX(priority: nat, host: string)
    | TXT(text: string)
    | AAAA(addr: string)
    | SRV(priority: nat, weight: nat, port: nat, host: string)

  datatype Record = Record(ttl: nat, data: RData)

  datatype Entry = Entry(name: string, records: seq<Record>)

  const HEADER_SIZE: nat := 12
  const CLASS_IN: nat := 1
  const TYPE_CNAME: nat := 5
  const TYPE_ANY: nat := 255
  const NXDOMAIN: nat := 3
  const REFUSED: nat := 5

  function TypeCode(d: RData): nat {
    match d
    case A(_) => 1
    case NS(_) => 2
    case CNAME(_) => TYPE_CNAME
    case PTR(_) => 12
    case MX(_, _) => 15
    case TXT(_) => 16
    case AAAA(_) => 28
    case SRV(_, _, _, _) => 33
  }

  predicate Named(d: RData) { d.NS? || d.CNAME? || d.PTR? || d.MX? || d.SRV? }

  /** What loading the configuration guarantees. */
  predicate ValidData(d: RData) {
    && (d.A? ==> |d.addr| == 4) && (d.AAAA? ==> |d.addr| == 16)
    && (Named(d) ==> ValidLabels(SplitName(d.host)))
    && (d.MX? || d.SRV? ==> d.priority < 0x1_0000) && (d.SRV? ==> d.weight < 0x1_0000 && d.port < 0x1_0000)
  }

  predicate ValidRecords(records: seq<Record>) {
    forall i :: 0 <= i < |records| ==> records[i].ttl < 0x1_0000_0000 && ValidData(records[i].data)
  }

  // ---------------------------------------------------------------------
  // Replies

  function U16(n: nat): (r: string)
    ensures |r| == 2
  {
    [(n / 256 % 256) as char, (n % 256) as char]
  }

  function U32(n: nat): (r: string)
    ensures |r| == 4
  {
    U16(n / 0x1_0000) + U16(n % 0x1_0000)
  }

  /** Pieces of at most 255 bytes, each behind its length. */
  function TextChunks(text: string): string {
    if text == "" then ""
    else
      var n := Min(|text|, 255);
      [n as char] + text[..n] + TextChunks(text[n..])
  }

  function DataBytes(d: RData): string
    requires ValidData(d)
  {
    match d
    case A(addr) => addr
    case AAAA(addr) => addr
    case TXT(text) => TextChunks(text)
    case MX(priority, host) => U16(priority) + EncodeLabels(SplitName(host))
    case SRV(priority, weight, port, host) => U16(priority) + U16(weight) + U16(port) + EncodeLabels(SplitName(host))
    case _ => EncodeLabels(SplitName(d.host))
  }

  /** The owner is a pointer to the name in the question, which follows the header. */
  const OWNER: string := [0xC0 as char, 12 as char]

  function RecordHead(r: Record, len: nat): string { OWNER + U16(TypeCode(r.data)) + U16(CLASS_IN) + U32(r.ttl) + U16(len) }

  function RecordBytes(r: Record): string
    requires ValidData(r.data)
  {
    RecordHead(r, |DataBytes(r.data)|) + DataBytes(r.data)
  }

  function AnswerBytes(records: seq<Record>): string
    requires ValidRecords(records)
  {
    if records == [] then "" else AnswerBytes(records[..|records| - 1]) + RecordBytes(records[|records| - 1])
  }

  predicate Answers(d: RData, kind: nat) { kind == TYPE_ANY || TypeCode(d) == kind || TypeCode(d) == TYPE_CNAME }

  /** The records of an entry that answer a question, in their order. */
  function Selected(records: seq<Record>, kind: nat): (r: seq<Record>)
    ensures ValidRecords(records) ==> ValidRecords(r)
  {
    if records == [] then []
    else
      var last := records[|records| - 1];
      Selected(records[..|records| - 1], kind) + if Answers(last.data, kind) then [last] else []
  }

  /** The first entry of this name. */
  function Find(entries: seq<Entry>, name: string): (r: Option<Entry>)
    ensures r.Some? ==> r.value in entries && r.value.name == name
    ensures r.None? ==> forall e :: e in entries ==> e.name != name
  {
    if entries == [] then None else if entries[0].name == name then Some(entries[0]) else Find(entries[1..], name)
  }

  predicate ValidEntries(entries: seq<Entry>) { forall i :: 0 <= i < |entries| ==> ValidRecords(entries[i].records) }

  function Number(m: string, at: nat): nat
    requires at + 2 <= |m|
  {
    m[at] as nat * 256 + m[at + 1] as nat
  }

  /** Response and authoritative; recursion is asked for as in the query. */
  function Flags(query: nat, rcode: nat): nat { 0x8400 + query / 0x100 % 2 * 0x100 + rcode }

  function Header(id: nat, flags: nat, count: nat): (r: string)
    ensures |r| == HEADER_SIZE
  {
    U16(id) + U16(flags) + U16(1) + U16(count) + U16(0) + U16(0)
  }

  datatype Question = Question(id: nat, flags: nat, name: string, size: nat, kind: nat, class_: nat)

  /** What a query asks, if it can be read; `size` is that of the encoded name. */
  function ParseQuery(query: string): Option<Question> {
    if |query| < HEADER_SIZE || Number(query, 4) == 0 then None
    else match Walk(query, HEADER_SIZE, HEADER_SIZE, 0, 0, "", 255)
      case None => None
      case Some(d) =>
        var at := HEADER_SIZE + d.size;
        if at + 4 > |query| then None
        else Some(Question(Number(query, 0), Number(query, 2), UpToZero(d.name), d.size, Number(query, at), Number(query, at + 2)))
  }

  function Rcode(q: Question, entries: seq<Entry>): nat {
    if q.class_ != CLASS_IN then REFUSED else if Find(entries, q.name).None? then NXDOMAIN else 0
  }

  function Chosen(q: Question, entries: seq<Entry>): (r: seq<Record>)
    requires ValidEntries(entries)
    ensures ValidRecords(r)
  {
    var e := Find(entries, q.name);
    if q.class_ != CLASS_IN || e.None? then []
    else
      assert ValidRecords(e.value.records);
      Selected(e.value.records, q.kind)
  }

  /** The reply: header, the question as it was sent, answers. */
  function Reply(query: string, entries: seq<Entry>): Option<string>
    requires ValidEntries(entries)
  {
    match ParseQuery(query)
    case None => None
    case Some(q) =>
      var records := Chosen(q, entries);
      if HEADER_SIZE + q.size + 4 > |query| then None
      else Some(Header(q.id, Flags(q.flags, Rcode(q, entries)), |records|) +
                query[HEADER_SIZE..HEADER_SIZE + q.size + 4] + AnswerBytes(records))
  }

  // ---------------------------------------------------------------------
  // Reading a message

  datatype Name = Name(labels: seq<string>, end: nat)

  /** Section 4.1.4: a pointer leads to an earlier place. */
  function ParseName(m: string, start: nat, pos: nat): Option<Name>
    decreases start, |m| - pos
  {
    if pos >= |m| then None
    else
      var len := m[pos] as nat;
      if len == 0 then Some(Name([], pos + 1))
      else if len >= 0xC0 then
        if pos + 1 >= |m| then None
        else
          var target := (len - 0xC0) * 256 + m[pos + 1] as nat;
          if target >= start then None
          else match ParseName(m, target, target)
            case None => None
            case Some(n) => Some(Name(n.labels, pos + 2))
      else if len > 63 || pos + 1 + len > |m| then None
      else match ParseName(m, start, pos + 1 + len)
        case None => None
        case Some(n) => Some(Name([m[pos + 1..pos + 1 + len]] + n.labels, n.end))
  }

  datatype Content =
    | Address4(addr: string)
    | NameServer(labels: seq<string>)
    | Alias(labels: seq<string>)
    | HostName(labels: seq<string>)
    | MailHost(priority: nat, labels: seq<string>)
    | Characters(text: string)
    | Address6(addr: string)
    | Service(priority: nat, weight: nat, port: nat, labels: seq<string>)

  datatype Answer = Answer(owner: seq<string>, class_: nat, ttl: nat, content: Content)

  /** Section 3.3.14: character strings up to the end. */
  function ParseTexts(m: string, pos: nat, end: nat): Option<string>
    requires end <= |m|
    decreases end - pos
  {
    if pos >= end then (if pos == end then Some("") else None)
    else
      var len := m[pos] as nat;
      if pos + 1 + len > end then None
      else match ParseTexts(m, pos + 1 + len, end)
        case None => None
        case Some(rest) => Some(m[pos + 1..pos + 1 + len] + rest)
  }

  /** A name that takes the bytes up to end. */
  function ParseHost(m: string, pos: nat, end: nat): Option<seq<string>> {
    match ParseName(m, pos, pos)
    case None => None
    case Some(n) => if n.end == end then Some(n.labels) else None
  }

  /** Section 3.2.2, with types 28 and 33 of RFC 3596 and RFC 2782. */
  function ParseContent(m: string, kind: nat, pos: nat, end: nat): Option<Content>
    requires pos <= end <= |m|
  {
    if kind == 1 then
      if end - pos == 4 then Some(Address4(m[pos..end])) else None
    else if kind == 28 then
      if end - pos == 16 then Some(Address6(m[pos..end])) else None
    else if kind == 2 then
      var h := ParseHost(m, pos, end); if h.None? then None else Some(NameServer(h.value))
    else if kind == 5 then
      var h := ParseHost(m, pos, end); if h.None? then None else Some(Alias(h.value))
    else if kind == 12 then
      var h := ParseHost(m, pos, end); if h.None? then None else Some(HostName(h.value))
    else if kind == 15 then
      if pos + 2 > end then None
      else var h := ParseHost(m, pos + 2, end); if h.None? then None else Some(MailHost(Number(m, pos), h.value))
    else if kind == 16 then
      var t := ParseTexts(m, pos, end); if t.None? then None else Some(Characters(t.value))
    else if kind == 33 then
      if pos + 6 > end then None
      else
        var h := ParseHost(m, pos + 6, end);
        if h.None? then None else Some(Service(Number(m, pos), Number(m, pos + 2), Number(m, pos + 4), h.value))
    else None
  }

  datatype Parsed<T> = Parsed(value: T, end: nat)

  /** Section 4.1.3. */
  function ParseAnswer(m: string, pos: nat): Option<Parsed<Answer>> {
    match ParseName(m, pos, pos)
    case None => None
    case Some(n) =>
      if n.end + 10 > |m| then None
      else
        var kind, start := Number(m, n.end), n.end + 10;
        var end := start + Number(m, n.end + 8);
        if end > |m| then None
        else match ParseContent(m, kind, start, end)
          case None => None
          case Some(c) =>
            Some(Parsed(Answer(n.labels, Number(m, n.end + 2), Number(m, n.end + 4) * 0x1_0000 + Number(m, n.end + 6), c), end))
  }

  function ParseAnswers(m: string, pos: nat, count: nat): Option<Parsed<seq<Answer>>> {
    if count == 0 then Some(Parsed([], pos))
    else match ParseAnswers(m, pos, count - 1)
      case None => None
      case Some(before) =>
        match ParseAnswer(m, before.end)
        case None => None
        case Some(a) => Some(Parsed(before.value + [a.value], a.end))
  }

  /** Section 4.1.1. */
  datatype HeaderFlags = HeaderFlags(
    response: bool, opcode: nat, authoritative: bool, truncated: bool,
    recursionDesired: bool, recursionAvailable: bool, reserved: nat, rcode: nat)

  function ReadFlags(n: nat): HeaderFlags {
    HeaderFlags(n / 32768 % 2 == 1, n / 2048 % 16, n / 1024 % 2 == 1, n / 512 % 2 == 1,
                n / 256 % 2 == 1, n / 128 % 2 == 1, n / 16 % 8, n % 16)
  }

  datatype Message = Message(id: nat, flags: HeaderFlags, name: seq<string>, kind: nat, class_: nat, answers: seq<Answer>)

  /** A message with one question and answers only, to its last byte. */
  function ParseMessage(m: string): Option<Message> {
    if |m| < 12 || Number(m, 4) != 1 || Number(m, 8) != 0 || Number(m, 10) != 0 then None
    else match ParseName(m, 12, 12)
      case None => None
      case Some(n) =>
        if n.end + 4 > |m| then None
        else match ParseAnswers(m, n.end + 4, Number(m, 6))
          case None => None
          case Some(a) =>
            if a.end != |m| then None
            else Some(Message(Number(m, 0), ReadFlags(Number(m, 2)), n.labels, Number(m, n.end), Number(m, n.end + 2), a.value))
  }

  // ---------------------------------------------------------------------
  // What must be read

  function ContentOf(d: RData): Content {
    match d
    case A(addr) => Address4(addr)
    case NS(host) => NameServer(SplitName(host))
    case CNAME(host) => Alias(SplitName(host))
    case PTR(host) => HostName(SplitName(host))
    case AAAA(addr) => Address6(addr)
    case TXT(text) => Characters(text)
    case MX(priority, host) => MailHost(priority, SplitName(host))
    case SRV(priority, weight, port, host) => Service(priority, weight, port, SplitName(host))
  }

  function Expected(owner: seq<string>, r: Record): Answer { Answer(owner, 1, r.ttl, ContentOf(r.data)) }

  function AllExpected(owner: seq<string>, records: seq<Record>): seq<Answer> {
    seq(|records|, i requires 0 <= i < |records| => Expected(owner, records[i]))
  }

  lemma NumberRead(m: string, at: nat, n: nat)
    requires n < 0x1_0000 && Holds(m, at, U16(n))
    ensures at + 2 <= |m| && Number(m, at) == n
  {
    assert m[at] == m[at..at + 2][0] && m[at + 1] == m[at..at + 2][1];
  }

  lemma LongRead(m: string, at: nat, n: nat)
    requires n < 0x1_0000_0000 && Holds(m, at, U32(n))
    ensures at + 4 <= |m| && Number(m, at) * 0x1_0000 + Number(m, at + 2) == n
  {
    hide U16, Holds;
    var a, b := U16(n / 0x1_0000), U16(n % 0x1_0000);
    assert U32(n) == "" + a + b && U32(n) == a + b + "";
    HoldsPart(m, at, "", a, b);
    HoldsPart(m, at, a, b, "");
    NumberRead(m, at, n / 0x1_0000);
    NumberRead(m, at + 2, n % 0x1_0000);
  }

  lemma {:induction false} LabelsRead(m: string, start: nat, pos: nat, labels: seq<string>)
    requires ValidLabels(labels) && Holds(m, pos, EncodeLabels(labels))
    ensures ParseName(m, start, pos) == Some(Name(labels, pos + |EncodeLabels(labels)|))
    decreases |labels|
  {
    hide Holds, EncodeLabels;
    LabelAt(m, pos, labels);
    if labels == [] {
      NoLabels();
    } else {
      LabelsRead(m, start, pos + 1 + |labels[0]|, labels[1..]);
      assert labels == [labels[0]] + labels[1..];
    }
  }

  lemma OwnerRead(m: string, pos: nat, labels: seq<string>)
    requires ValidLabels(labels) && Holds(m, HEADER_SIZE, EncodeLabels(labels)) && Holds(m, pos, OWNER) && pos > HEADER_SIZE
    ensures ParseName(m, pos, pos) == Some(Name(labels, pos + 2))
  {
    LabelsRead(m, HEADER_SIZE, HEADER_SIZE, labels);
    assert m[pos] == m[pos..pos + 2][0] && m[pos + 1] == m[pos..pos + 2][1];
  }

  lemma NextChunk(rest: string)
    requires rest != ""
    ensures var n := Min(|rest|, 255); TextChunks(rest) == [n as char] + rest[..n] + TextChunks(rest[n..])
  {
  }

  lemma {:induction false} TextsRead(m: string, pos: nat, text: string)
    requires Holds(m, pos, TextChunks(text))
    ensures pos + |TextChunks(text)| <= |m| && ParseTexts(m, pos, pos + |TextChunks(text)|) == Some(text)
    decreases |text|
  {
    hide Holds, TextChunks, ParseTexts;
    HoldsIs(m, pos, TextChunks(text));
    if text == "" {
      NoText(m, pos);
    } else {
      NextChunk(text);
      var n := Min(|text|, 255);
      var len, first, rest := [n as char], text[..n], TextChunks(text[n..]);
      assert TextChunks(text) == "" + len + (first + rest) && TextChunks(text) == len + first + rest && TextChunks(text) == (len + first) + rest + "";
      HoldsPart(m, pos, "", len, first + rest);
      HoldsIs(m, pos, len);
      HoldsPart(m, pos, len, first, rest);
      HoldsIs(m, pos + 1, first);
      HoldsPart(m, pos, len + first, rest, "");
      assert m[pos] == m[pos..pos + 1][0];
      TextsRead(m, pos + 1 + n, text[n..]);
      TextStep(m, pos, n, first, text[n..], pos + 1 + n + |rest|);
      assert text == text[..n] + text[n..];
    }
  }

  lemma NoText(m: string, pos: nat)
    requires pos <= |m|
    ensures TextChunks("") == "" && ParseTexts(m, pos, pos) == Some("")
  {
  }

  lemma TextStep(m: string, pos: nat, n: nat, first: string, rest: string, end: nat)
    requires pos + 1 + n <= end <= |m| && m[pos] as nat == n && m[pos + 1..pos + 1 + n] == first
    requires ParseTexts(m, pos + 1 + n, end) == Some(rest)
    ensures ParseTexts(m, pos, end) == Some(first + rest)
  {
  }

  lemma HostRead(m: string, pos: nat, labels: seq<string>)
    requires ValidLabels(labels) && Holds(m, pos, EncodeLabels(labels))
    ensures ParseHost(m, pos, pos + |EncodeLabels(labels)|) == Some(labels) && pos + |EncodeLabels(labels)| <= |m|
  {
    LabelsRead(m, pos, pos, labels);
  }

  lemma MailRead(m: string, pos: nat, priority: nat, host: string)
    requires ValidData(MX(priority, host)) && Holds(m, pos, DataBytes(MX(priority, host)))
    ensures pos + |DataBytes(MX(priority, host))| <= |m|
    ensures ParseContent(m, 15, pos, pos + |DataBytes(MX(priority, host))|) == Some(MailHost(priority, SplitName(host)))
  {
    hide Holds, EncodeLabels, U16, ValidLabels, ParseHost, Number;
    var d := DataBytes(MX(priority, host));
    var a, b := U16(priority), EncodeLabels(SplitName(host));
    assert d == "" + a + b && d == a + b + "";
    HoldsPart(m, pos, "", a, b);
    HoldsPart(m, pos, a, b, "");
    NumberRead(m, pos, priority);
    HostRead(m, pos + 2, SplitName(host));
  }

  lemma ServiceRead(m: string, pos: nat, priority: nat, weight: nat, port: nat, host: string)
    requires ValidData(SRV(priority, weight, port, host)) && Holds(m, pos, DataBytes(SRV(priority, weight, port, host)))
    ensures pos + |DataBytes(SRV(priority, weight, port, host))| <= |m|
    ensures ParseContent(m, 33, pos, pos + |DataBytes(SRV(priority, weight, port, host))|) ==
            Some(Service(priority, weight, port, SplitName(host)))
  {
    hide Holds, EncodeLabels, U16, ValidLabels, ParseHost, Number;
    var d := DataBytes(SRV(priority, weight, port, host));
    var p, w, q, b := U16(priority), U16(weight), U16(port), EncodeLabels(SplitName(host));
    assert d == "" + p + (w + q + b) && d == p + w + (q + b) && d == (p + w) + q + b && d == (p + w + q) + b + "";
    HoldsPart(m, pos, "", p, w + q + b);
    HoldsPart(m, pos, p, w, q + b);
    HoldsPart(m, pos, p + w, q, b);
    HoldsPart(m, pos, p + w + q, b, "");
    NumberRead(m, pos, priority);
    NumberRead(m, pos + 2, weight);
    NumberRead(m, pos + 4, port);
    HostRead(m, pos + 6, SplitName(host));
  }

  lemma ContentRead(m: string, pos: nat, d: RData)
    requires ValidData(d) && Holds(m, pos, DataBytes(d))
    ensures pos + |DataBytes(d)| <= |m| && ParseContent(m, TypeCode(d), pos, pos + |DataBytes(d)|) == Some(ContentOf(d))
  {
    hide Holds, EncodeLabels, U16, TextChunks, ValidLabels, ParseHost, ParseTexts;
    HoldsIs(m, pos, DataBytes(d));
    match d {
      case A(_) =>
      case AAAA(_) =>
      case TXT(text) => TextsRead(m, pos, text);
      case MX(priority, host) => MailRead(m, pos, priority, host);
      case SRV(priority, weight, port, host) => ServiceRead(m, pos, priority, weight, port, host);
      case NS(host) => HostRead(m, pos, SplitName(host));
      case CNAME(host) => HostRead(m, pos, SplitName(host));
      case PTR(host) => HostRead(m, pos, SplitName(host));
    }
  }

  lemma HeadRead(m: string, pos: nat, r: Record, len: nat)
    requires r.ttl < 0x1_0000_0000 && len < 0x1_0000 && Holds(m, pos, RecordHead(r, len))
    ensures Holds(m, pos, OWNER) && pos + 12 <= |m|
    ensures Number(m, pos + 2) == TypeCode(r.data) && Number(m, pos + 4) == CLASS_IN
    ensures Number(m, pos + 6) * 0x1_0000 + Number(m, pos + 8) == r.ttl && Number(m, pos + 10) == len
  {
    hide Holds, U16, U32;
    var t, c, l, n := U16(TypeCode(r.data)), U16(CLASS_IN), U32(r.ttl), U16(len);
    var whole := RecordHead(r, len);
    assert whole == "" + OWNER + (t + c + l + n) && whole == OWNER + t + (c + l + n);
    assert whole == (OWNER + t) + c + (l + n) && whole == (OWNER + t + c) + l + n && whole == (OWNER + t + c + l) + n + "";
    HoldsPart(m, pos, "", OWNER, t + c + l + n);
    HoldsPart(m, pos, OWNER, t, c + l + n);
    HoldsPart(m, pos, OWNER + t, c, l + n);
    HoldsPart(m, pos, OWNER + t + c, l, n);
    HoldsPart(m, pos, OWNER + t + c + l, n, "");
    NumberRead(m, pos + 2, TypeCode(r.data));
    NumberRead(m, pos + 4, CLASS_IN);
    LongRead(m, pos + 6, r.ttl);
    NumberRead(m, pos + 10, len);
  }

  lemma AnswerRead(m: string, pos: nat, owner: seq<string>, r: Record)
    requires ValidLabels(owner) && Holds(m, HEADER_SIZE, EncodeLabels(owner)) && pos > HEADER_SIZE
    requires r.ttl < 0x1_0000_0000 && ValidData(r.data) && |RecordBytes(r)| < 0x1_0000 && Holds(m, pos, RecordBytes(r))
    ensures ParseAnswer(m, pos) == Some(Parsed(Expected(owner, r), pos + |RecordBytes(r)|))
  {
    hide Holds, DataBytes, ValidData, ValidLabels, EncodeLabels, RecordHead, ParseName, ParseContent, Number, ContentOf;
    var data := DataBytes(r.data);
    var head := RecordHead(r, |data|);
    HeadLength(r, |data|);
    assert RecordBytes(r) == "" + head + data && RecordBytes(r) == head + data + "";
    HoldsPart(m, pos, "", head, data);
    HoldsPart(m, pos, head, data, "");
    HeadRead(m, pos, r, |data|);
    OwnerRead(m, pos, owner);
    ContentRead(m, pos + 12, r.data);
  }

  lemma HeadLength(r: Record, len: nat)
    ensures |RecordHead(r, len)| == 12
  {
  }

  lemma {:induction false} AnswersRead(m: string, pos: nat, owner: seq<string>, records: seq<Record>)
    requires ValidLabels(owner) && Holds(m, HEADER_SIZE, EncodeLabels(owner)) && pos > HEADER_SIZE
    requires ValidRecords(records) && |AnswerBytes(records)| < 0x1_0000 && Holds(m, pos, AnswerBytes(records))
    ensures ParseAnswers(m, pos, |records|) == Some(Parsed(AllExpected(owner, records), pos + |AnswerBytes(records)|))
  {
    hide Holds, EncodeLabels, ValidLabels, RecordBytes, ParseAnswer, Expected, ValidData;
    if records != [] {
      var last := |records| - 1;
      var a, b := AnswerBytes(records[..last]), RecordBytes(records[last]);
      assert AnswerBytes(records) == "" + a + b && AnswerBytes(records) == a + b + "";
      HoldsPart(m, pos, "", a, b);
      HoldsPart(m, pos, a, b, "");
      AnswersRead(m, pos, owner, records[..last]);
      AnswerRead(m, pos + |a|, owner, records[last]);
      assert AllExpected(owner, records) == AllExpected(owner, records[..last]) + [Expected(owner, records[last])];
    } else {
      assert AllExpected(owner, records) == [];
    }
  }

  lemma HeaderRead(m: string, id: nat, flags: nat, count: nat)
    requires id < 0x1_0000 && flags < 0x1_0000 && count < 0x1_0000 && Holds(m, 0, Header(id, flags, count))
    ensures |m| >= HEADER_SIZE
    ensures Number(m, 0) == id && Number(m, 2) == flags && Number(m, 4) == 1 && Number(m, 6) == count
    ensures Number(m, 8) == 0 && Number(m, 10) == 0
  {
    hide Holds, U16;
    var i, f, o, c, z := U16(id), U16(flags), U16(1), U16(count), U16(0);
    var whole := Header(id, flags, count);
    assert whole == "" + i + (f + o + c + z + z) && whole == i + f + (o + c + z + z) && whole == (i + f) + o + (c + z + z);
    assert whole == (i + f + o) + c + (z + z) && whole == (i + f + o + c) + z + z && whole == (i + f + o + c + z) + z + "";
    HoldsPart(m, 0, "", i, f + o + c + z + z);
    HoldsPart(m, 0, i, f, o + c + z + z);
    HoldsPart(m, 0, i + f, o, c + z + z);
    HoldsPart(m, 0, i + f + o, c, z + z);
    HoldsPart(m, 0, i + f + o + c, z, z);
    HoldsPart(m, 0, i + f + o + c + z, z, "");
    NumberRead(m, 0, id);
    NumberRead(m, 2, flags);
    NumberRead(m, 4, 1);
    NumberRead(m, 6, count);
    NumberRead(m, 8, 0);
    NumberRead(m, 10, 0);
  }

  lemma {:induction false} EnoughBytes(records: seq<Record>)
    requires ValidRecords(records)
    ensures |records| <= |AnswerBytes(records)|
  {
    hide ValidData, DataBytes, RecordHead;
    if records != [] {
      var last := records[|records| - 1];
      EnoughBytes(records[..|records| - 1]);
      HeadLength(last, |DataBytes(last.data)|);
    }
  }

  /** The query asks one uncompressed question. */
  predicate Asks(query: string, labels: seq<string>) {
    && IsBytes(query) && 12 <= |query| && Number(query, 4) != 0
    && ValidLabels(labels)
    && 12 + |EncodeLabels(labels)| + 4 <= |query|
    && query[12..12 + |EncodeLabels(labels)|] == EncodeLabels(labels)
  }

  /** The question as it is understood: the name in lower case with dots, cut at 255 bytes. */
  lemma QueryParsed(query: string, labels: seq<string>)
    requires Asks(query, labels)
    ensures var q, at := ParseQuery(query), HEADER_SIZE + |EncodeLabels(labels)|;
            && q == Some(Question(Number(query, 0), Number(query, 2), UpToZero(Cut(JoinOnto("", labels), 255)), |EncodeLabels(labels)|,
                                  Number(query, at), Number(query, at + 2)))
            && Number(query, 0) < 0x1_0000 && Number(query, 2) < 0x1_0000
  {
    hide Walk, EncodeLabels, JoinOnto, ValidLabels, Cut;
    LabelsDecode(query, HEADER_SIZE, labels, 255);
  }

  lemma QuestionRead(m: string, query: string, labels: seq<string>, head: string, rest: string)
    requires Asks(query, labels) && |head| == HEADER_SIZE
    requires m == head + query[HEADER_SIZE..HEADER_SIZE + |EncodeLabels(labels)| + 4] + rest
    ensures var at := HEADER_SIZE + |EncodeLabels(labels)|;
            && Holds(m, HEADER_SIZE, EncodeLabels(labels)) && at + 4 <= |m|
            && Number(m, at) == Number(query, at) && Number(m, at + 2) == Number(query, at + 2)
            && Holds(m, 0, head) && Holds(m, at + 4, rest)
  {
    hide EncodeLabels, JoinOnto, ValidLabels, IsBytes;
    var at := HEADER_SIZE + |EncodeLabels(labels)|;
    forall i | HEADER_SIZE <= i < at + 4
      ensures m[i] == query[i]
    {
      assert m[i] == query[HEADER_SIZE..at + 4][i - HEADER_SIZE];
    }
    assert m[HEADER_SIZE..at] == query[HEADER_SIZE..at];
    assert m[0..HEADER_SIZE] == head && m[at + 4..at + 4 + |rest|] == rest;
  }

  /** The message that an independent reader finds in a reply. */
  lemma ReplyParses(query: string, entries: seq<Entry>, labels: seq<string>)
    requires Asks(query, labels) && ValidEntries(entries)
    ensures var q := ParseQuery(query);
            && q.Some? && Reply(query, entries).Some?
            && var m := Reply(query, entries).value;
            && (|m| < 0x1_0000 ==>
                  ParseMessage(m) == Some(Message(q.value.id, ReadFlags(Flags(q.value.flags, Rcode(q.value, entries))), labels, q.value.kind,
                                                  q.value.class_, AllExpected(labels, Chosen(q.value, entries)))))
  {
    hide Asks, ValidEntries, EncodeLabels, Walk, UpToZero, JoinOnto, Header, Flags, ReadFlags, Rcode, Chosen, ParseName, ParseAnswers, AnswerBytes,
      Number, Holds, Cut;
    QueryParsed(query, labels);
    AsksIs(query, labels);
    var q := ParseQuery(query).value;
    var records := Chosen(q, entries);
    var flags := Flags(q.flags, Rcode(q, entries));
    var head := Header(q.id, flags, |records|);
    var question := query[HEADER_SIZE..HEADER_SIZE + q.size + 4];
    var m := Reply(query, entries).value;
    if |m| < 0x1_0000 {
      EnoughBytes(records);
      FlagsRead(q, entries);
      QuestionRead(m, query, labels, head, AnswerBytes(records));
      HeaderRead(m, q.id, flags, |records|);
      LabelsRead(m, HEADER_SIZE, HEADER_SIZE, labels);
      AnswersRead(m, HEADER_SIZE + q.size + 4, labels, records);
    }
  }

  lemma AsksIs(query: string, labels: seq<string>)
    requires Asks(query, labels)
    ensures ValidLabels(labels) && HEADER_SIZE + |EncodeLabels(labels)| + 4 <= |query|
  {
  }

  // ---------------------------------------------------------------------
  // What a reply says

  /** An authoritative response to a standard query, with recursion desired as in the query. */
  lemma FlagsRead(q: Question, entries: seq<Entry>)
    ensures Flags(q.flags, Rcode(q, entries)) < 0x1_0000
    ensures ReadFlags(Flags(q.flags, Rcode(q, entries))) ==
            HeaderFlags(true, 0, true, false, q.flags / 256 % 2 == 1, false, 0,
                        if q.class_ != 1 then 5 else if exists e :: e in entries && e.name == q.name then 0 else 3)
  {
    var _ := Find(entries, q.name);
  }

  /** The record has the type that is asked for, every type is asked for, or it is an alias. */
  ghost predicate AskedFor(d: RData, kind: nat) {
    || kind == 255 || d.CNAME?
    || (d.A? && kind == 1) || (d.NS? && kind == 2) || (d.PTR? && kind == 12) || (d.MX? && kind == 15)
    || (d.TXT? && kind == 16) || (d.AAAA? && kind == 28) || (d.SRV? && kind == 33)
  }

  /** The positions are in order and exactly those of the records that are asked for. */
  ghost predicate Picks(positions: seq<nat>, records: seq<Record>, kind: nat) {
    && (forall a, b :: 0 <= a < b < |positions| ==> positions[a] < positions[b])
    && (forall k :: 0 <= k < |positions| ==> positions[k] < |records|)
    && (forall j :: 0 <= j < |records| ==> (j in positions <==> AskedFor(records[j].data, kind)))
  }

  /** The answers are exactly the records that are asked for, in their order. */
  ghost predicate Lists(answers: seq<Answer>, owner: seq<string>, records: seq<Record>, kind: nat) {
    exists positions :: Picks(positions, records, kind) && |answers| == |positions|
      && forall k :: 0 <= k < |answers| ==> answers[k] == Expected(owner, records[positions[k]])
  }

  lemma AnswersIs(d: RData, kind: nat)
    ensures Answers(d, kind) <==> AskedFor(d, kind)
  {
  }

  lemma PicksOneMore(positions: seq<nat>, records: seq<Record>, last: Record, kind: nat)
    requires Picks(positions, records, kind)
    ensures Picks(if AskedFor(last.data, kind) then positions + [|records|] else positions, records + [last], kind)
  {
    hide AskedFor;
    assert |records| !in positions;
    var longer := positions + [|records|];
    assert forall j :: j in longer <==> j in positions || j == |records|;
  }

  lemma {:induction false} SelectedPicks(records: seq<Record>, kind: nat) returns (positions: seq<nat>)
    ensures Picks(positions, records, kind)
    ensures var r := Selected(records, kind);
            |r| == |positions| && forall k :: 0 <= k < |r| ==> positions[k] < |records| && r[k] == records[positions[k]]
  {
    hide AskedFor, Answers, Picks, ValidRecords;
    if records == [] {
      NothingPicked(kind);
      return [];
    }
    var init, last := records[..|records| - 1], records[|records| - 1];
    assert records == init + [last];
    positions := SelectedPicks(init, kind);
    PicksOneMore(positions, init, last, kind);
    AnswersIs(last.data, kind);
    if AskedFor(last.data, kind) {
      positions := positions + [|init|];
    }
  }

  lemma NothingPicked(kind: nat)
    ensures Picks([], [], kind)
  {
  }

  /** A record is chosen exactly when it is in the entry and asked for. */
  lemma SelectedMember(records: seq<Record>, kind: nat, r: Record)
    ensures r in Selected(records, kind) <==> r in records && AskedFor(r.data, kind)
  {
    hide Selected, AskedFor;
    var positions := SelectedPicks(records, kind);
    var chosen := Selected(records, kind);
    if r in chosen {
      var k :| 0 <= k < |chosen| && chosen[k] == r;
      assert positions[k] in positions;
    }
    if r in records && AskedFor(r.data, kind) {
      var j :| 0 <= j < |records| && records[j] == r;
      assert j in positions;
      var k :| 0 <= k < |positions| && positions[k] == j;
      assert chosen[k] == r;
    }
  }

  /** The first entry of the name that is asked for. */
  ghost predicate FirstNamed(entries: seq<Entry>, i: int, labels: seq<string>) {
    0 <= i < |entries| && AskedName(labels, entries[i].name) && forall j :: 0 <= j < i ==> !AskedName(labels, entries[j].name)
  }

  lemma {:induction false} FindFirst(entries: seq<Entry>, name: string, i: nat)
    requires i < |entries| && entries[i].name == name && forall j :: 0 <= j < i ==> entries[j].name != name
    ensures Find(entries, name) == Some(entries[i])
  {
    if i > 0 {
      assert entries[0].name != name;
      FindFirst(entries[1..], name, i - 1);
    }
  }

  /** Two bytes of a message, the higher one first. */
  ghost function TwoBytes(m: string, at: nat): nat
    requires at + 2 <= |m|
  {
    256 * m[at] as nat + m[at + 1] as nat
  }

  /** The reply: an authoritative response with the identifier and the question of the query and recursion desired as
      there. Any class but 1 is refused, with code 5; code 3 says that no entry has the name; otherwise the answers are
      those of the first entry that has it. */
  ghost predicate Replies(query: string, entries: seq<Entry>, labels: seq<string>, r: Message)
    requires Asks(query, labels)
  {
    var at := 12 + |EncodeLabels(labels)|;
    && r.id == TwoBytes(query, 0) && r.name == labels && r.kind == TwoBytes(query, at) && r.class_ == TwoBytes(query, at + 2)
    && r.flags.(rcode := 0) == HeaderFlags(true, 0, true, false, query[2] as nat % 2 == 1, false, 0, 0)
    && (r.class_ != 1 ==> r.flags.rcode == 5 && r.answers == [])
    && (r.class_ == 1 && (forall e :: e in entries ==> !AskedName(labels, e.name)) ==> r.flags.rcode == 3 && r.answers == [])
    && (forall i :: r.class_ == 1 && 0 <= i < |entries| && FirstNamed(entries, i, labels) ==> r.flags.rcode == 0 && Lists(r.answers, labels, entries[i].records, r.kind))
  }

  lemma SameBytes(query: string, at: nat)
    requires at + 2 <= |query|
    ensures Number(query, at) == TwoBytes(query, at)
  {
  }

  lemma DesiredBit(query: string)
    requires 12 <= |query| && IsBytes(query)
    ensures Number(query, 2) / 256 % 2 == query[2] as nat % 2
  {
  }

  lemma ChosenLists(q: Question, entries: seq<Entry>, labels: seq<string>, i: int)
    requires ValidEntries(entries) && ValidLabels(labels) && q.class_ == 1 && q.name == UpToZero(Cut(JoinOnto("", labels), 255))
    requires FirstNamed(entries, i, labels)
    ensures Lists(AllExpected(labels, Chosen(q, entries)), labels, entries[i].records, q.kind)
    ensures entries[i] in entries && entries[i].name == q.name
  {
    hide Expected, AskedFor, Selected, AskedName, UpToZero, Cut, JoinOnto, ValidLabels, ValidRecords;
    forall j | 0 <= j <= i
      ensures AskedName(labels, entries[j].name) <==> entries[j].name == q.name
    {
      AskedNameIs(labels, entries[j].name);
    }
    FindFirst(entries, q.name, i);
    var positions := SelectedPicks(entries[i].records, q.kind);
  }

  /** A reader that follows RFC 1035 finds this in the reply to an uncompressed question. */
  lemma ReplyRead(query: string, entries: seq<Entry>, labels: seq<string>)
    requires Asks(query, labels) && ValidEntries(entries)
    ensures Reply(query, entries).Some?
    ensures var m := Reply(query, entries).value;
            |m| < 65536 ==> ParseMessage(m).Some? && Replies(query, entries, labels, ParseMessage(m).value)
  {
    hide ValidEntries, EncodeLabels, JoinOnto, UpToZero, Cut, AskedName, Chosen, Rcode, Flags, ReadFlags, ParseMessage, Reply, Number, ParseQuery, Lists, FirstNamed,
      ValidLabels, TwoBytes;
    var at := 12 + |EncodeLabels(labels)|;
    ReplyParses(query, entries, labels);
    QueryParsed(query, labels);
    var q := ParseQuery(query).value;
    FlagsRead(q, entries);
    SameBytes(query, 0);
    SameBytes(query, at);
    SameBytes(query, at + 2);
    DesiredBit(query);
    forall i | q.class_ == 1 && 0 <= i < |entries| && FirstNamed(entries, i, labels)
      ensures Lists(AllExpected(labels, Chosen(q, entries)), labels, entries[i].records, q.kind)
      ensures exists e :: e in entries && e.name == q.name
    {
      ChosenLists(q, entries, labels, i);
    }
    forall e | e in entries
      ensures AskedName(labels, e.name) <==> e.name == q.name
    {
      AskedNameIs(labels, e.name);
    }
    NoneChosen(q, entries, labels);
  }

  lemma NoneChosen(q: Question, entries: seq<Entry>, labels: seq<string>)
    requires ValidEntries(entries)
    ensures q.class_ != 1 || (forall e :: e in entries ==> e.name != q.name) ==> AllExpected(labels, Chosen(q, entries)) == []
  {
    var _ := Find(entries, q.name);
  }

  /** The reply says that there is no such name exactly when no entry has it. */
  lemma NoSuchName(query: string, entries: seq<Entry>, labels: seq<string>)
    requires Asks(query, labels) && ValidEntries(entries) && TwoBytes(query, 12 + |EncodeLabels(labels)| + 2) == 1
    ensures var q := ParseQuery(query);
            q.Some? && (ReadFlags(Flags(q.value.flags, Rcode(q.value, entries))).rcode == 3 <==>
                        forall e :: e in entries ==> !AskedName(labels, e.name))
  {
    hide ValidEntries, EncodeLabels, UpToZero, JoinOnto, Flags, ReadFlags, Rcode, AskedName, Cut, ValidLabels;
    QueryParsed(query, labels);
    var q := ParseQuery(query).value;
    FlagsRead(q, entries);
    forall e | e in entries
      ensures AskedName(labels, e.name) <==> e.name == q.name
    {
      AskedNameIs(labels, e.name);
    }
  }

  /** There is no reply exactly to a query without a whole header, a question, a name with an end, or room for its type and class. */
  lemma NoReply(query: string, entries: seq<Entry>)
    requires IsBytes(query) && ValidEntries(entries)
    ensures Reply(query, entries).None? <==>
            || |query| < 12 || TwoBytes(query, 4) == 0
            || EndOf(query, 12) <= 12 || EndOf(query, 12) + 4 > |query|
            || !exists labels, pointers :: NameAt(query, 12, labels, pointers) && pointers <= 64
  {
    hide Walk, NameAt, EndOf, ValidEntries, AnswerBytes, Selected, Find, Rcode;
    if |query| >= 12 {
      NameReadIff(query, 12, 255);
      if Walk(query, 12, 12, 0, 0, "", 255).Some? {
        var labels, pointers :| NameAt(query, 12, labels, pointers) && pointers <= 64;
        assert Cut("", 255) == "";
        WalkReads(query, 12, 12, 0, 0, "", 255, labels, pointers);
      }
    }
  }
}
