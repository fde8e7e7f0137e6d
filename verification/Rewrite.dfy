/** Rewriting the header block in the buffers of the relay. */
module Rewrite {
  import opened Text
  import opened StringBuf
  import opened RewriteSpec

  const CHUNK_SIZE: nat := 0x1_0000

  /** First occurrence at or after start, or -1. */
  method Search(s: string, start: nat, needle: string) returns (r: int)
    requires start <= |s| && needle != ""
    ensures var k := StrStr(s[start..], needle); r == if k < 0 then -1 else start + k
  {
    hide StrStr, OccursAt;
    r := start;
    while r + |needle| <= |s|
      invariant start <= r && forall i :: 0 <= i < r - start ==> !OccursAt(s[start..], needle, i)
    {
      OccursDrop(s, start, needle, r);
      if s[r..r + |needle|] == needle {
        StrStrIs(s[start..], needle, r - start);
        return;
      }
      r := r + 1;
    }
    TooShort(s[start..], needle, StrStr(s[start..], needle));
    return -1;
  }

  lemma OccursDrop(s: string, start: nat, needle: string, r: int)
    requires start <= r && r + |needle| <= |s|
    ensures OccursAt(s[start..], needle, r - start) <==> s[r..r + |needle|] == needle
  {
    assert s[start..][r - start..r - start + |needle|] == s[r..r + |needle|];
  }

  lemma TooShort(s: string, needle: string, i: int)
    ensures OccursAt(s, needle, i) ==> 0 <= i && i + |needle| <= |s|
  {
  }

  /** A text that fits. */
  method EmitShort(sb: StringBuf, text: string)
    requires sb.Valid() && sb.size + |text| < sb.maxCapacity / 2 && sb.maxCapacity >= 128
    modifies sb, sb.data
    ensures sb.Valid() && (sb.data == old(sb.data) || fresh(sb.data))
    ensures sb.Contents() == old(sb.Contents()) + text
  {
    SmallAppendsFit(sb.maxCapacity, sb.data.Length, sb.size + |text|);
    assert sb.Contents() + "" == sb.Contents();
    Emit(sb, text);
  }

  method EmitLine(sb: StringBuf, line: string)
    requires sb.Valid() && sb.size + |line| + 2 < sb.maxCapacity / 2 && sb.maxCapacity >= 128
    modifies sb, sb.data
    ensures sb.Valid() && (sb.data == old(sb.data) || fresh(sb.data))
    ensures sb.Contents() == old(sb.Contents()) + line + CRLF
  {
    EmitShort(sb, line);
    EmitShort(sb, CRLF);
  }

  lemma {:induction false} JoinAppend(lines: seq<string>, line: string)
    ensures Join(lines + [line]) == Join(lines) + line + CRLF
    decreases |lines|
  {
    if lines == [] {
      assert [] + [line] == [line] && [line][1..] == [];
    } else {
      assert (lines + [line])[1..] == lines[1..] + [line];
      JoinAppend(lines[1..], line);
    }
  }

  /** The end of the line that begins at p. */
  lemma LineEnd(block: string, p: nat)
    requires IsBlock(block) && p < |block| - 2 && (p == 0 || (p >= 2 && OccursAt(block, CRLF, p - 2)))
    ensures var k := StrStr(block[p..], CRLF); var s := block[..|block| - 2];
            && 0 <= k && p + k + 2 <= |s| && OccursAt(block, CRLF, p + k)
            && Lines(s[p..]) == [block[p..p + k]] + Lines(s[p + k + 2..])
            && (p > 0 ==> k > 0)
  {
    hide StrStr, OccursAt;
    var end := |block| - 2;
    var s := block[..end];
    EndsLine(block);
    if p > 0 {
      Apart(block, p - 2, |block| - 4);
    }
    OccursTail(block, p, CRLF, |block| - 4);
    var k := StrStr(block[p..], CRLF);
    OccursTail(block, p, CRLF, p + k);
    SameEnd(block[p..], end - p, k);
    SliceTail(block, p, end);
    DropTake(block, p, k);
    SliceTail(block, p + k + 2, end);
    SliceTake(block, p, end, k);
    SliceDrop(block, p, end, k + 2);
    if p > 0 && k == 0 {
      TwoEnds(block, p);
      assert false;
    }
  }

  lemma SliceTail(s: string, p: nat, end: nat)
    requires p <= end <= |s|
    ensures s[..end][p..] == s[p..end] == s[p..][..end - p]
  {
  }

  /** Two line ends do not overlap. */
  lemma Apart(s: string, i: int, j: int)
    requires OccursAt(s, CRLF, i) && OccursAt(s, CRLF, j)
    ensures i < j ==> i + 2 <= j
  {
    assert s[i..i + 2][1] == s[i + 1] && s[j..j + 2][0] == s[j];
  }

  lemma OccursTail(s: string, p: nat, needle: string, i: int)
    requires p <= |s| && p <= i
    ensures OccursAt(s[p..], needle, i - p) <==> OccursAt(s, needle, i)
  {
    if i + |needle| <= |s| {
      assert s[p..][i - p..i - p + |needle|] == s[i..i + |needle|];
    }
  }

  lemma SameEnd(s: string, end: nat, k: nat)
    requires end <= |s| && StrStr(s, CRLF) == k && k + 2 <= end
    ensures StrStr(s[..end], CRLF) == k
  {
    hide StrStr, OccursAt;
    var t := s[..end];
    OccursTake(s, end, CRLF, k);
    forall i | 0 <= i < k
      ensures !OccursAt(t, CRLF, i)
    {
      OccursTake(s, end, CRLF, i);
    }
    StrStrIs(t, CRLF, k);
  }

  /** Builds the block that is sent, line by line. */
  method Rebuild(block: string, keep: bool) returns (outsb: StringBuf)
    requires IsBlock(block) && |block| < 0x100_0000
    ensures fresh(outsb) && fresh(outsb.data) && outsb.Valid() && outsb.maxCapacity == STRINGBUF_MAX_CAP
    ensures outsb.Contents() == Rewritten(block, keep)
  {
    hide StrStr, OccursAt, Lines, Join, Others, IsConnection, StringBuf.Valid;
    outsb := new StringBuf(|block| + 32, STRINGBUF_MAX_CAP);
    BlockHasLine(block);
    ghost var s := block[..|block| - 2];
    ghost var lines := Lines(s);
    ghost var done: seq<string> := [];
    var p, blockEnd, first := 0, |block| - 2, true;
    assert s[0..] == s;
    NoLines();
    while p < blockEnd
      invariant 0 <= p <= blockEnd && (p == 0 || (p >= 2 && OccursAt(block, CRLF, p - 2)))
      invariant if first then p == 0 && done == [] else done + Others(Lines(s[p..])) == [lines[0]] + Others(lines[1..])
      invariant fresh(outsb) && fresh(outsb.data) && outsb.Valid() && outsb.maxCapacity == STRINGBUF_MAX_CAP
      invariant outsb.Contents() == Join(done) && outsb.size <= p
      invariant p == blockEnd ==> !first
    {
      LineEnd(block, p);
      var eol := Search(block, p, CRLF);
      if eol < 0 || eol > blockEnd {
        eol := blockEnd;
      }
      var line := block[p..eol];
      ghost var rest := Lines(s[eol + 2..]);
      NextOther(line, rest);
      assert Lines(s[p..]) == [line] + rest;
      if first || !IsConnection(line) {
        EmitLine(outsb, line);
        JoinAppend(done, line);
        Moved(done, line, Others(rest));
        done := done + [line];
      }
      first := false;
      p := eol + 2;
    }
    assert s[p..] == "";
    assert done + [] == done;
    assert done + [ConnectionLine(keep)] == RewrittenLines(lines, keep);
    var last := ConnectionLine(keep) + CRLF + CRLF;
    EmitShort(outsb, last);
    JoinAppend(done, ConnectionLine(keep));
    assert Join(done) + last == Join(done) + ConnectionLine(keep) + CRLF + CRLF;
  }

  lemma NoLines()
    ensures Lines("") == [] && Others([]) == [] && Join([]) == ""
  {
    NoEnd();
  }

  lemma NextOther(line: string, rest: seq<string>)
    ensures Others([line] + rest) == if IsConnection(line) then Others(rest) else [line] + Others(rest)
  {
    assert ([line] + rest)[1..] == rest;
  }

  lemma Moved(done: seq<string>, line: string, rest: seq<string>)
    ensures done + ([line] + rest) == done + [line] + rest
  {
  }

  class HeaderRelay {
    var passing: bool
    var buf: string
    const keep: string -> bool

    ghost function Now(): Relay
      reads this
    {
      if passing then Passing else Collecting(buf)
    }

    ghost predicate Valid()
      reads this
    {
      !passing ==> |buf| <= MAX_HEADER
    }

    constructor (keep: string -> bool)
      ensures Valid() && Now() == Collecting("") && this.keep == keep
    {
      passing, buf := false, "";
      this.keep := keep;
    }

    /** One read from the upstream: what is sent to the client because of it. */
    method OnRead(data: string) returns (sent: string)
      requires Valid() && |data| <= CHUNK_SIZE
      modifies this
      ensures Valid()
      ensures var r := OnBytes(old(Now()), data, keep); Now() == r.relay && sent == r.sent
    {
      hide StrStr, Rewritten, StringBuf.Valid;
      if passing {
        return data;
      }
      buf := buf + data;
      assert buf[0..] == buf;
      var at := Search(buf, 0, BLOCK_END);
      if at < 0 {
        if |buf| > MAX_HEADER {
          sent := buf;
          passing, buf := true, "";
        } else {
          sent := "";
        }
        return;
      }
      BlockAt(buf);
      var block, body := buf[..at + 4], buf[at + 4..];
      var outsb := Rebuild(block, keep(block));
      sent := outsb.Copy(0, outsb.size);
      assert outsb.Contents()[0..outsb.size] == outsb.Contents();
      sent := sent + body;
      passing, buf := true, "";
    }
  }

  /** All reads of a response: the header block is rewritten once, the rest follows unchanged. */
  method RelayAll(pieces: seq<string>, keep: string -> bool) returns (sent: string)
    requires forall i :: 0 <= i < |pieces| ==> |pieces[i]| <= CHUNK_SIZE
    requires var at := StrStr(Concat(pieces), BLOCK_END);
             if at < 0 then |Concat(pieces)| <= MAX_HEADER else at + 4 <= MAX_HEADER + 1
    ensures sent == Sent(Concat(pieces), keep).sent
  {
    hide StrStr, Rewritten, OnBytes, Sent;
    var relay := new HeaderRelay(keep);
    sent := "";
    var i := 0;
    while i < |pieces|
      invariant 0 <= i <= |pieces| && relay.Valid() && relay.keep == keep && fresh(relay)
      invariant After(pieces[..i], keep) == Outcome(relay.Now(), sent)
    {
      assert pieces[..i + 1][..i] == pieces[..i];
      var more := relay.OnRead(pieces[i]);
      sent := sent + more;
      i := i + 1;
    }
    assert pieces[..|pieces|] == pieces;
    SplitIndependent(pieces, keep);
  }
}
