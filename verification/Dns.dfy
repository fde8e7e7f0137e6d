/** Building a reply in the output buffer; lengths and counts are filled in afterwards. */
module Dns {
  import opened Text
  import opened ByteBuffer
  import opened DnsName
  import opened DnsMessage

  method FindEntry(entries: seq<Entry>, name: string) returns (r: Option<Entry>)
    ensures r == Find(entries, name)
  {
    var i := 0;
    while i < |entries|
      invariant 0 <= i <= |entries| && Find(entries, name) == Find(entries[i..], name)
    {
      assert entries[i..][1..] == entries[i + 1..];
      if entries[i].name == name {
        return Some(entries[i]);
      }
      i := i + 1;
    }
    return None;
  }

  /** `done` has been written at the front of the buffer. */
  ghost predicate Written(now: string, before: string, done: string) {
    |now| == |before| && |done| <= |now| && now == Splice(before, 0, done)
  }

  /** Writes `text` behind what is there. */
  method Emit(out: array<char>, pos: nat, text: string, ghost before: string, ghost done: string) returns (next: nat)
    requires Written(out[..], before, done) && pos == |done| && pos + |text| <= out.Length
    modifies out
    ensures next == pos + |text| && Written(out[..], before, done + text)
  {
    hide Splice;
    Put(out, pos, text);
    SpliceAfter(before, 0, done, text);
    return pos + |text|;
  }

  method EmitName(out: array<char>, pos: nat, host: string, outmax: nat, ghost before: string, ghost done: string) returns (next: nat)
    requires Written(out[..], before, done) && pos == |done|
    requires ValidLabels(SplitName(host)) && pos + |EncodeLabels(SplitName(host))| <= outmax <= out.Length
    modifies out
    ensures next == pos + |EncodeLabels(SplitName(host))| && Written(out[..], before, done + EncodeLabels(SplitName(host)))
  {
    hide Splice, EncodeLabels, ValidLabels;
    var n := EncodeName(host, out, pos, outmax - pos);
    SpliceAfter(before, 0, done, EncodeLabels(SplitName(host)));
    return pos + n;
  }

  method EmitTexts(out: array<char>, start: nat, text: string, outmax: nat, ghost before: string, ghost done: string) returns (pos: nat)
    requires Written(out[..], before, done) && start == |done|
    requires start + |TextChunks(text)| <= outmax <= out.Length
    modifies out
    ensures pos == start + |TextChunks(text)| && Written(out[..], before, done + TextChunks(text))
  {
    hide Splice;
    var rest := text;
    ghost var written := done;
    pos := start;
    while rest != ""
      invariant pos == |written| && Written(out[..], before, written)
      invariant written + TextChunks(rest) == done + TextChunks(text)
      decreases |rest|
    {
      NextChunk(rest);
      var n := Min(|rest|, 255);
      var piece := [n as char] + rest[..n];
      pos := Emit(out, pos, piece, before, written);
      assert written + (piece + TextChunks(rest[n..])) == written + piece + TextChunks(rest[n..]);
      written := written + piece;
      rest := rest[n..];
    }
    assert written + TextChunks("") == written;
  }

  method EmitData(out: array<char>, start: nat, d: RData, outmax: nat, ghost before: string, ghost done: string) returns (pos: nat)
    requires Written(out[..], before, done) && start == |done|
    requires ValidData(d) && start + |DataBytes(d)| <= outmax <= out.Length
    modifies out
    ensures pos == start + |DataBytes(d)| && Written(out[..], before, done + DataBytes(d))
  {
    hide Splice, EncodeLabels, U16, TextChunks, ValidLabels;
    match d {
      case A(addr) => pos := Emit(out, start, addr, before, done);
      case AAAA(addr) => pos := Emit(out, start, addr, before, done);
      case TXT(text) => pos := EmitTexts(out, start, text, outmax, before, done);
      case NS(host) => pos := EmitName(out, start, host, outmax, before, done);
      case CNAME(host) => pos := EmitName(out, start, host, outmax, before, done);
      case PTR(host) => pos := EmitName(out, start, host, outmax, before, done);
      case MX(priority, host) =>
        pos := Emit(out, start, U16(priority), before, done);
        pos := EmitName(out, pos, host, outmax, before, done + U16(priority));
        Grouped(done, U16(priority), EncodeLabels(SplitName(host)));
      case SRV(priority, weight, port, host) =>
        var numbers := U16(priority) + U16(weight) + U16(port);
        pos := Emit(out, start, numbers, before, done);
        pos := EmitName(out, pos, host, outmax, before, done + numbers);
        Grouped(done, numbers, EncodeLabels(SplitName(host)));
    }
  }

  lemma Grouped(a: string, b: string, c: string)
    ensures a + b + c == a + (b + c)
  {
  }

  /** One record: its length is not known before its data is written. */
  method EmitRecord(out: array<char>, start: nat, r: Record, outmax: nat, ghost before: string, ghost done: string) returns (pos: nat)
    requires Written(out[..], before, done) && start == |done|
    requires ValidData(r.data) && start + |RecordBytes(r)| <= outmax <= out.Length
    modifies out
    ensures pos == start + |RecordBytes(r)| && Written(out[..], before, done + RecordBytes(r))
  {
    hide Splice, DataBytes, U16, U32, ValidData;
    var fields := OWNER + U16(TypeCode(r.data)) + U16(CLASS_IN) + U32(r.ttl);
    pos := Emit(out, start, fields, before, done);
    ghost var x := done + fields;
    var lengthAt := pos;
    pos := Emit(out, pos, U16(0), before, x);
    var dataAt := pos;
    pos := EmitData(out, pos, r.data, outmax, before, x + U16(0));
    var length := U16(pos - dataAt);
    Put(out, lengthAt, length);
    ghost var data := DataBytes(r.data);
    SplicePatch(before, 0, x, U16(0), length, data);
    assert RecordBytes(r) == fields + length + data;
    assert done + RecordBytes(r) == x + length + data;
  }

  lemma {:induction false} SelectedGrows(records: seq<Record>, kind: nat, i: nat)
    requires i <= |records| && ValidRecords(records)
    ensures |AnswerBytes(Selected(records[..i], kind))| <= |AnswerBytes(Selected(records, kind))|
    ensures |Selected(records[..i], kind)| <= |Selected(records, kind)|
    decreases |records|
  {
    hide RecordBytes, ValidData, Answers;
    if i == |records| {
      assert records[..i] == records;
    } else {
      var init := records[..|records| - 1];
      SelectedGrows(init, kind, i);
      assert init[..i] == records[..i];
      NextSelected(records, kind, |records| - 1);
    }
  }

  lemma NextSelected(records: seq<Record>, kind: nat, i: nat)
    requires i < |records| && ValidRecords(records)
    ensures var before, after, r := Selected(records[..i], kind), Selected(records[..i + 1], kind), records[i];
            && ValidRecords(records[..i]) && ValidRecords(records[..i + 1]) && ValidData(r.data) && ValidRecords(before) && ValidRecords(after)
            && (if Answers(r.data, kind) then after == before + [r] && AnswerBytes(after) == AnswerBytes(before) + RecordBytes(r)
                else after == before)
    ensures records[..|records|] == records
  {
    hide RecordBytes, ValidData, Answers;
    assert records[..i + 1][..i] == records[..i];
    var before, r := Selected(records[..i], kind), records[i];
    assert (before + [r])[..|before|] == before;
    assert before + [] == before;
  }

  method EmitAnswers(out: array<char>, start: nat, records: seq<Record>, kind: nat, outmax: nat, ghost before: string, ghost done: string)
      returns (pos: nat, count: nat)
    requires Written(out[..], before, done) && start == |done|
    requires ValidRecords(records) && start + |AnswerBytes(Selected(records, kind))| <= outmax <= out.Length
    modifies out
    ensures var chosen := Selected(records, kind);
            pos == start + |AnswerBytes(chosen)| && count == |chosen| && Written(out[..], before, done + AnswerBytes(chosen))
  {
    hide Splice, RecordBytes, ValidData, Answers;
    pos, count := start, 0;
    var i := 0;
    assert records[..0] == [] && done + "" == done;
    while i < |records|
      invariant 0 <= i <= |records| && ValidRecords(records[..i])
      invariant var chosen := Selected(records[..i], kind);
                pos == start + |AnswerBytes(chosen)| && count == |chosen| && Written(out[..], before, done + AnswerBytes(chosen))
    {
      NextSelected(records, kind, i);
      SelectedGrows(records, kind, i + 1);
      if Answers(records[i].data, kind) {
        ghost var so_far := AnswerBytes(Selected(records[..i], kind));
        pos := EmitRecord(out, pos, records[i], outmax, before, done + so_far);
        Grouped(done, so_far, RecordBytes(records[i]));
        count := count + 1;
      }
      i := i + 1;
    }
    assert records[..|records|] == records;
  }

  /** The reply to a query, in at most outmax bytes; 0 if the query cannot be read. */
  method BuildResponse(query: string, entries: seq<Entry>, out: array<char>, outmax: nat) returns (n: nat)
    requires ValidEntries(entries) && outmax <= out.Length
    requires Reply(query, entries).Some? ==> |Reply(query, entries).value| <= outmax
    modifies out
    ensures outmax < 512 ==> n == 0
    ensures outmax >= 512 ==> match Reply(query, entries)
                              case None => n == 0
                              case Some(m) => n == |m| && out[..n] == m
  {
    hide Splice, ValidEntries, Walk, Chosen, Rcode, UpToZero, AnswerBytes, Flags, Header, Number;
    if |query| < HEADER_SIZE || outmax < 512 {
      return 0;
    }
    if Number(query, 4) == 0 {
      return 0;
    }
    var q := ReadQuestion(query);
    if q.None? {
      return 0;
    }
    n := WriteReply(query, q.value, entries, out, outmax);
  }

  /** The question of a query that has one. */
  method ReadQuestion(query: string) returns (q: Option<Question>)
    requires HEADER_SIZE <= |query| && Number(query, 4) != 0
    ensures q == ParseQuery(query)
  {
    hide Walk, UpToZero, Number;
    var qname := new char[256](_ => 0 as char);
    var r := DecodeName(query, HEADER_SIZE, qname, 256);
    if r < 0 {
      return None;
    }
    var at := HEADER_SIZE + r;
    if at + 4 > |query| {
      return None;
    }
    var name := ReadText(qname, 0, 256);
    ghost var d := Walk(query, HEADER_SIZE, HEADER_SIZE, 0, 0, "", 255).value;
    SameUpToZero(qname[..], d.name);
    assert qname[..][0..256] == qname[..];
    return Some(Question(Number(query, 0), Number(query, 2), name, r, Number(query, at), Number(query, at + 2)));
  }

  lemma {:induction false} SameUpToZero(s: string, name: string)
    requires |name| < |s| && s[..|name|] == name && s[|name|] as nat == 0
    ensures UpToZero(s) == UpToZero(name)
    decreases |name|
  {
    if name != "" {
      assert s[0] == s[..|name|][0];
      if name[0] as nat != 0 {
        assert s[1..][..|name| - 1] == s[..|name|][1..];
        SameUpToZero(s[1..], name[1..]);
      }
    }
  }

  method WriteReply(query: string, q: Question, entries: seq<Entry>, out: array<char>, outmax: nat) returns (pos: nat)
    requires ValidEntries(entries) && outmax <= out.Length && HEADER_SIZE + q.size + 4 <= |query|
    requires HEADER_SIZE + q.size + 4 + |AnswerBytes(Chosen(q, entries))| <= outmax
    modifies out
    ensures var m := Header(q.id, Flags(q.flags, Rcode(q, entries)), |Chosen(q, entries)|) +
                     query[HEADER_SIZE..HEADER_SIZE + q.size + 4] + AnswerBytes(Chosen(q, entries));
            pos == |m| && out[..pos] == m
  {
    hide Splice, AnswerBytes, Flags, U16, Selected;
    var entry: Option<Entry>, rcode := None, 0;
    if q.class_ != CLASS_IN {
      rcode := REFUSED;
    } else {
      entry := FindEntry(entries, q.name);
      if entry.None? {
        rcode := NXDOMAIN;
      }
    }
    var flags := Flags(q.flags, rcode);
    ghost var before := out[..];
    SpliceNothing(before, 0);
    var front := U16(q.id) + U16(flags) + U16(1);
    var question := query[HEADER_SIZE..HEADER_SIZE + q.size + 4];
    var back := U16(0) + U16(0) + question;
    pos := Emit(out, 0, front + U16(0) + back, before, "");
    ghost var head := front + U16(0) + back;
    assert "" + head == head;
    var count := 0;
    ghost var answers := AnswerBytes(Chosen(q, entries));
    if rcode == 0 {
      ChosenIs(q, entries, entry.value);
      pos, count := EmitAnswers(out, pos, entry.value.records, q.kind, outmax, before, head);
    } else {
      NoAnswers();
      assert head + "" == head;
    }
    assert head + answers == front + U16(0) + (back + answers);
    Put(out, 6, U16(count));
    SplicePatch(before, 0, front, U16(0), U16(count), back + answers);
    ghost var m := Header(q.id, flags, count) + question + answers;
    assert m == front + U16(count) + (back + answers);
    SpliceFront(before, m);
  }

  lemma NoAnswers()
    ensures AnswerBytes([]) == ""
  {
  }

  lemma ChosenIs(q: Question, entries: seq<Entry>, e: Entry)
    requires ValidEntries(entries) && q.class_ == CLASS_IN && Find(entries, q.name) == Some(e)
    ensures ValidRecords(e.records) && Chosen(q, entries) == Selected(e.records, q.kind)
  {
  }

  lemma SpliceFront(b: string, text: string)
    requires |text| <= |b|
    ensures Splice(b, 0, text)[..|text|] == text
  {
  }
}
