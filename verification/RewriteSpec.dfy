/** The header block of an upstream's response as it is passed on to the client. */
module RewriteSpec {
  import opened Text
  import opened StringBuf

  const CRLF: string := "\r\n"
  const BLOCK_END: string := "\r\n\r\n"
  const MAX_HEADER: nat := 16384

  // ---------------------------------------------------------------------
  // Searching

  /** Position of the first occurrence, or -1. */
  function StrStr(s: string, needle: string): (r: int)
    requires needle != ""
    ensures r == -1 || OccursAt(s, needle, r)
    ensures forall i :: 0 <= i < (if r < 0 then |s| else r) ==> !OccursAt(s, needle, i)
  {
    if |s| < |needle| then -1
    else if s[..|needle|] == needle then 0
    else
      var r := StrStr(s[1..], needle);
      assert forall i :: OccursAt(s, needle, i) && i > 0 ==> OccursAt(s[1..], needle, i - 1);
      if r < 0 then -1 else r + 1
  }

  lemma StrStrIs(s: string, needle: string, r: int)
    requires needle != "" && OccursAt(s, needle, r) && forall i :: 0 <= i < r ==> !OccursAt(s, needle, i)
    ensures StrStr(s, needle) == r
  {
  }

  lemma OccursTake(s: string, k: nat, needle: string, i: int)
    requires k <= |s|
    ensures OccursAt(s[..k], needle, i) <==> OccursAt(s, needle, i) && i + |needle| <= k
  {
    if 0 <= i && i + |needle| <= k {
      assert s[..k][i..i + |needle|] == s[i..i + |needle|];
    }
  }

  lemma OccursWithin(s: string, needle: string, i: int)
    requires OccursAt(s, needle, i)
    ensures 0 <= i && i + |needle| <= |s|
  {
  }

  lemma StrStrAppend(s: string, t: string, needle: string)
    requires needle != "" && StrStr(s, needle) >= 0
    ensures StrStr(s + t, needle) == StrStr(s, needle)
  {
    var r := StrStr(s, needle);
    forall i | 0 <= i <= |s| - |needle|
      ensures OccursAt(s + t, needle, i) <==> OccursAt(s, needle, i)
    {
      assert (s + t)[i..i + |needle|] == s[i..i + |needle|];
    }
    StrStrIs(s + t, needle, r);
  }

  // ---------------------------------------------------------------------
  // Lines

  predicate IsLine(line: string) { StrStr(line, CRLF) < 0 }

  /** The lines of a text in which every line ends with CR LF; what follows the last one does not count. */
  function Lines(s: string): (r: seq<string>)
    decreases |s|
  {
    var eol := StrStr(s, CRLF);
    if eol < 0 then [] else [s[..eol]] + Lines(s[eol + 2..])
  }

  function Join(lines: seq<string>): string {
    if lines == [] then "" else lines[0] + CRLF + Join(lines[1..])
  }

  predicate AllLines(lines: seq<string>) { forall i :: 0 <= i < |lines| ==> IsLine(lines[i]) }

  predicate IsConnection(line: string) { |line| >= 11 && Lower(line[..11]) == "connection:" }

  function Others(lines: seq<string>): (r: seq<string>)
    ensures forall l :: l in r <==> l in lines && !IsConnection(l)
  {
    if lines == [] then []
    else
      assert lines == [lines[0]] + lines[1..];
      if IsConnection(lines[0]) then Others(lines[1..]) else [lines[0]] + Others(lines[1..])
  }

  function ConnectionLine(keep: bool): string { "Connection: " + if keep then "keep-alive" else "close" }

  function RewrittenLines(lines: seq<string>, keep: bool): seq<string>
    requires lines != []
  {
    [lines[0]] + Others(lines[1..]) + [ConnectionLine(keep)]
  }

  /** A header block ends where the first empty line ends. */
  predicate IsBlock(block: string) { |block| >= 4 && StrStr(block, BLOCK_END) == |block| - 4 }

  /** The block that is sent instead of a block that ends with an empty line. */
  function Rewritten(block: string, keep: bool): string
    requires IsBlock(block)
  {
    BlockHasLine(block);
    Join(RewrittenLines(Lines(block[..|block| - 2]), keep)) + CRLF
  }

  lemma BlockHasLine(block: string)
    requires IsBlock(block)
    ensures Lines(block[..|block| - 2]) != []
  {
    hide StrStr, OccursAt;
    OccursWithin(block, BLOCK_END, |block| - 4);
    EndsLine(block);
    OccursTake(block, |block| - 2, CRLF, |block| - 4);
  }

  lemma EndsLine(block: string)
    requires OccursAt(block, BLOCK_END, |block| - 4)
    ensures OccursAt(block, CRLF, |block| - 4)
  {
    var end := block[|block| - 4..|block|];
    assert end[..2] == CRLF;
  }

  lemma LineOf(s: string, eol: nat)
    requires StrStr(s, CRLF) == eol
    ensures eol + 2 <= |s| && IsLine(s[..eol])
  {
    hide StrStr, OccursAt;
    OccursWithin(s, CRLF, eol);
    OccursTake(s, eol, CRLF, StrStr(s[..eol], CRLF));
  }

  lemma {:induction false} LinesAreLines(s: string)
    ensures AllLines(Lines(s))
    decreases |s|
  {
    var eol := StrStr(s, CRLF);
    if eol >= 0 {
      LineOf(s, eol);
      LinesAreLines(s[eol + 2..]);
    }
  }

  /** A line followed by CR LF ends there. */
  lemma LineEnds(line: string, rest: string)
    requires IsLine(line)
    ensures StrStr(line + CRLF + rest, CRLF) == |line|
  {
    var s := line + CRLF + rest;
    assert s[|line|..|line| + 2] == CRLF;
    forall i | 0 <= i < |line|
      ensures !OccursAt(s, CRLF, i)
    {
      assert s[i] == line[i];
      if i + 1 < |line| {
        assert s[i..i + 2] == line[i..i + 2];
        assert !OccursAt(line, CRLF, i);
      } else {
        assert s[i..i + 2][1] == '\r';
      }
    }
    StrStrIs(s, CRLF, |line|);
  }

  lemma {:induction false} LinesOfJoin(lines: seq<string>)
    requires AllLines(lines)
    ensures Lines(Join(lines)) == lines
  {
    hide StrStr, IsLine;
    if lines == [] {
      assert StrStr("", CRLF) < 0 by { NoEnd(); }
    } else {
      LinesOfJoin(lines[1..]);
      LineEnds(lines[0], Join(lines[1..]));
      var s := Join(lines);
      assert s[..|lines[0]|] == lines[0] && s[|lines[0]| + 2..] == Join(lines[1..]);
    }
  }

  lemma NoEnd()
    ensures StrStr("", CRLF) < 0
  {
  }

  lemma ConnectionIsLine(keep: bool)
    ensures IsLine(ConnectionLine(keep)) && IsConnection(ConnectionLine(keep))
  {
    hide StrStr;
    var s := ConnectionLine(keep);
    NoReturn(s);
    assert s[..11] == "Connection:";
    LowerConnection();
  }

  lemma NoReturn(s: string)
    requires forall i :: 0 <= i < |s| ==> s[i] != '\r'
    ensures IsLine(s)
  {
    hide StrStr, OccursAt;
    BeginsWithReturn(s, StrStr(s, CRLF));
  }

  lemma BeginsWithReturn(s: string, r: int)
    ensures OccursAt(s, CRLF, r) ==> 0 <= r < |s| && s[r] == '\r'
  {
    if OccursAt(s, CRLF, r) {
      assert s[r] == s[r..r + 2][0];
    }
  }

  lemma LowerConnection()
    ensures Lower("Connection:") == "connection:"
  {
    var s, t := "Connection:", "connection:";
    assert forall i :: 0 <= i < |s| ==> ToLower(s[i]) == t[i];
  }

  /** Read line by line the block that is sent is the status line, all other lines but Connection
      lines in their order, and one Connection line at the end. */
  lemma RewrittenReads(block: string, keep: bool)
    requires IsBlock(block)
    ensures var out, lines := Rewritten(block, keep), Lines(block[..|block| - 2]);
            && lines != [] && |out| >= 2 && out[|out| - 2..] == CRLF
            && Lines(out[..|out| - 2]) == [lines[0]] + Others(lines[1..]) + [ConnectionLine(keep)]
            && (forall l :: l in Others(lines[1..]) ==> !IsConnection(l)) && IsConnection(ConnectionLine(keep))
  {
    hide StrStr, IsLine, Lines, Join;
    BlockHasLine(block);
    var lines := Lines(block[..|block| - 2]);
    var all := RewrittenLines(lines, keep);
    LinesAreLines(block[..|block| - 2]);
    ConnectionIsLine(keep);
    forall i | 0 <= i < |all|
      ensures IsLine(all[i])
    {
      if 0 < i < |all| - 1 {
        assert all[i] in Others(lines[1..]);
        assert all[i] in lines;
      }
    }
    LinesOfJoin(all);
    var out := Rewritten(block, keep);
    assert out[..|out| - 2] == Join(all);
  }

  lemma TwoEnds(block: string, p: nat)
    requires p >= 2 && OccursAt(block, CRLF, p - 2) && OccursAt(block, CRLF, p)
    ensures OccursAt(block, BLOCK_END, p - 2)
  {
    assert block[p - 2..p + 2] == block[p - 2..p] + block[p..p + 2];
  }

  // ---------------------------------------------------------------------
  // Reads of any size

  datatype Relay = Collecting(buf: string) | Passing

  datatype Outcome = Outcome(relay: Relay, sent: string)

  /** One read. `keep` is the decision that belongs to a header block. */
  function OnBytes(r: Relay, data: string, keep: string -> bool): Outcome {
    match r
    case Passing => Outcome(Passing, data)
    case Collecting(buf) =>
      var all := buf + data;
      var at := StrStr(all, BLOCK_END);
      if at >= 0 then
        BlockAt(all);
        Outcome(Passing, Rewritten(all[..at + 4], keep(all[..at + 4])) + all[at + 4..])
      else if |all| > MAX_HEADER then Outcome(Passing, all)
      else Outcome(Collecting(all), "")
  }

  lemma BlockAt(all: string)
    requires StrStr(all, BLOCK_END) >= 0
    ensures var at := StrStr(all, BLOCK_END); at + 4 <= |all| && IsBlock(all[..at + 4])
  {
    hide StrStr, OccursAt;
    var at := StrStr(all, BLOCK_END);
    OccursWithin(all, BLOCK_END, at);
    var block := all[..at + 4];
    OccursTake(all, at + 4, BLOCK_END, at);
    forall i | 0 <= i < at
      ensures !OccursAt(block, BLOCK_END, i)
    {
      OccursTake(all, at + 4, BLOCK_END, i);
    }
    StrStrIs(block, BLOCK_END, at);
  }

  /** What has been sent after some reads. */
  function After(pieces: seq<string>, keep: string -> bool): Outcome {
    if pieces == [] then Outcome(Collecting(""), "")
    else
      var before := After(pieces[..|pieces| - 1], keep);
      var last := OnBytes(before.relay, pieces[|pieces| - 1], keep);
      Outcome(last.relay, before.sent + last.sent)
  }

  /** The same for the stream as a whole. */
  function Sent(stream: string, keep: string -> bool): Outcome {
    var at := StrStr(stream, BLOCK_END);
    if at < 0 then Outcome(Collecting(stream), "")
    else
      BlockAt(stream);
      Outcome(Passing, Rewritten(stream[..at + 4], keep(stream[..at + 4])) + stream[at + 4..])
  }

  /** Whatever the reads, a header block of at most 16385 bytes is rewritten and all that
      follows is passed on unchanged. */
  lemma {:induction false} SplitIndependent(pieces: seq<string>, keep: string -> bool)
    requires var at := StrStr(Concat(pieces), BLOCK_END);
             if at < 0 then |Concat(pieces)| <= 16384 else at + 4 <= 16385
    ensures After(pieces, keep) == Sent(Concat(pieces), keep)
  {
    hide StrStr, Rewritten;
    if pieces == [] {
      assert StrStr("", BLOCK_END) < 0 by { NoBlock(); }
    } else {
      var x, y := Concat(pieces[..|pieces| - 1]), pieces[|pieces| - 1];
      EarlierBlock(x, y);
      SplitIndependent(pieces[..|pieces| - 1], keep);
      var at := StrStr(x, BLOCK_END);
      if at >= 0 {
        StrStrAppend(x, y, BLOCK_END);
        BlockAt(x);
        assert (x + y)[..at + 4] == x[..at + 4];
        assert (x + y)[at + 4..] == x[at + 4..] + y;
        assert Rewritten(x[..at + 4], keep(x[..at + 4])) + x[at + 4..] + y == Rewritten(x[..at + 4], keep(x[..at + 4])) + (x[at + 4..] + y);
      }
    }
  }

  lemma NoBlock()
    ensures StrStr("", BLOCK_END) < 0
  {
  }

  /** A part of a stream has no block, or the same one. */
  lemma EarlierBlock(x: string, y: string)
    ensures var at := StrStr(x + y, BLOCK_END);
            if StrStr(x, BLOCK_END) >= 0 then at == StrStr(x, BLOCK_END) else at < 0 || |x| < at + 4
  {
    if StrStr(x, BLOCK_END) >= 0 {
      StrStrAppend(x, y, BLOCK_END);
    } else {
      OccursEarlier(x, y, BLOCK_END, StrStr(x + y, BLOCK_END));
    }
  }

  lemma OccursEarlier(x: string, y: string, needle: string, at: int)
    ensures OccursAt(x + y, needle, at) && at + |needle| <= |x| ==> OccursAt(x, needle, at)
  {
    if 0 <= at && at + |needle| <= |x| {
      assert x[at..at + |needle|] == (x + y)[at..at + |needle|];
    }
  }

  /** A longer block is passed on as it is if the first read is longer than the limit but does not complete it. */
  lemma LongBlocksPass(stream: string, keep: string -> bool)
    requires StrStr(stream, BLOCK_END) + 4 > 16385
    ensures var pieces := [stream[..16385], stream[16385..]];
            Concat(pieces) == stream && After(pieces, keep) == Outcome(Passing, stream)
  {
    hide StrStr, Rewritten;
    var x, y := stream[..MAX_HEADER + 1], stream[MAX_HEADER + 1..];
    assert x + y == stream;
    EarlierBlock(x, y);
    ReadOne(x, keep);
    assert [x, y][..1] == [x];
    assert Concat([x]) == x by { assert [x][..0] == []; assert "" + x == x; }
  }

  lemma ReadOne(x: string, keep: string -> bool)
    requires StrStr(x, BLOCK_END) < 0 && |x| > MAX_HEADER
    ensures After([x], keep) == Outcome(Passing, x)
  {
    hide StrStr, Rewritten;
    assert [x][..0] == [];
    assert "" + x == x;
  }

  /** Sent as it is, although a header block may be in it. */
  function Unchanged(stream: string): Outcome { Outcome(Passing, stream) }

  lemma PassingOn(x: string, y: string, keep: string -> bool)
    requires StrStr(x, BLOCK_END) >= 0
    ensures Sent(x + y, keep) == Outcome(Passing, Sent(x, keep).sent + y)
  {
    hide StrStr, Rewritten;
    var at := StrStr(x, BLOCK_END);
    StrStrAppend(x, y, BLOCK_END);
    BlockAt(x);
    assert (x + y)[..at + 4] == x[..at + 4] && (x + y)[at + 4..] == x[at + 4..] + y;
    var out := Rewritten(x[..at + 4], keep(x[..at + 4]));
    assert out + x[at + 4..] + y == out + (x[at + 4..] + y);
  }

  /** Whatever the reads, the stream is treated as a whole or sent as it is. */
  lemma {:induction false} SentOrUnchanged(pieces: seq<string>, keep: string -> bool)
    ensures After(pieces, keep) in {Sent(Concat(pieces), keep), Unchanged(Concat(pieces))}
  {
    hide StrStr, Rewritten;
    if pieces == [] {
      NoBlock();
    } else {
      var x, y := Concat(pieces[..|pieces| - 1]), pieces[|pieces| - 1];
      SentOrUnchanged(pieces[..|pieces| - 1], keep);
      if StrStr(x, BLOCK_END) >= 0 {
        PassingOn(x, y, keep);
      } else {
        var last := OnBytes(After(pieces[..|pieces| - 1], keep).relay, y, keep);
        assert "" + last.sent == last.sent;
      }
    }
  }

  lemma OnePiece(x: string, keep: string -> bool)
    requires StrStr(x, BLOCK_END) < 0 && |x| > MAX_HEADER
    ensures Concat([x]) == x && After([x], keep) == Unchanged(x)
  {
    hide StrStr, Rewritten;
    ReadOne(x, keep);
    assert [x][..0] == [] && "" + x == x;
  }

  /** When the treatment of a stream cannot depend on how it is cut: its header block is short
      enough, or rewriting changes nothing. */
  predicate CutsDoNotMatter(stream: string, keep: string -> bool) {
    var at := StrStr(stream, BLOCK_END);
    if at < 0 then |stream| <= 16384 else at + 4 <= 16385 || Sent(stream, keep).sent == stream
  }

  /** A stream is treated as a whole for all cuts exactly under that condition. */
  lemma SplitIndependentIff(stream: string, keep: string -> bool)
    ensures (forall pieces :: Concat(pieces) == stream ==> After(pieces, keep) == Sent(stream, keep)) <==>
            CutsDoNotMatter(stream, keep)
  {
    hide StrStr, Rewritten, After, Concat;
    var at := StrStr(stream, BLOCK_END);
    if CutsDoNotMatter(stream, keep) {
      forall pieces | Concat(pieces) == stream
        ensures After(pieces, keep) == Sent(stream, keep)
      {
        if at < 0 || at + 4 <= MAX_HEADER + 1 {
          SplitIndependent(pieces, keep);
        } else {
          SentOrUnchanged(pieces, keep);
        }
      }
    } else if at < 0 {
      OnePiece(stream, keep);
    } else {
      LongBlocksPass(stream, keep);
    }
  }
}
