/** A header block and the one sent instead of it, as texts. */
module RewriteText {
  import opened Text
  import opened Numerals
  import opened StringBuf
  import opened RewriteSpec

  /** No carriage return is followed by a line feed. */
  ghost predicate OneLine(line: string) { forall i :: 0 <= i < |line| - 1 ==> !(line[i] == '\r' && line[i + 1] == '\n') }

  /** The lines, each with its end. */
  ghost function TextOf(lines: seq<string>): string {
    if lines == [] then "" else lines[0] + "\r\n" + TextOf(lines[1..])
  }

  /** A status line, header lines, and an empty line, which is the first one. */
  ghost predicate BlockOf(block: string, status: string, headers: seq<string>) {
    && OneLine(status) && (forall i :: 0 <= i < |headers| ==> OneLine(headers[i]))
    && block == TextOf([status] + headers) + "\r\n"
    && OccursAt(block, "\r\n\r\n", |block| - 4) && forall i :: 0 <= i < |block| - 4 ==> !OccursAt(block, "\r\n\r\n", i)
  }

  /** The name of the line is Connection, in any mixture of capitals and small letters. */
  ghost predicate NamesConnection(line: string) { |line| >= 11 && AnyCase(line[..11], "connection:") }

  /** The lines that do not name it, by their places in order. */
  ghost predicate Remaining(kept: seq<string>, lines: seq<string>) {
    exists places :: RemainAt(places, lines) && |kept| == |places| && forall k :: 0 <= k < |kept| ==> kept[k] == lines[places[k]]
  }

  ghost predicate RemainAt(places: seq<nat>, lines: seq<string>) {
    && (forall a, b :: 0 <= a < b < |places| ==> places[a] < places[b])
    && (forall k :: 0 <= k < |places| ==> places[k] < |lines|)
    && (forall j :: 0 <= j < |lines| ==> (j in places <==> !NamesConnection(lines[j])))
  }

  lemma EndAt(line: string, i: int)
    ensures OccursAt(line, CRLF, i) <==> 0 <= i < |line| - 1 && line[i] == '\r' && line[i + 1] == '\n'
  {
    if 0 <= i < |line| - 1 {
      assert line[i..i + 2] == [line[i], line[i + 1]];
    }
  }

  lemma LineIff(line: string)
    ensures OneLine(line) <==> IsLine(line)
  {
    hide StrStr, OccursAt;
    var r := StrStr(line, CRLF);
    if r >= 0 {
      EndAt(line, r);
    } else {
      forall i | 0 <= i < |line| - 1
        ensures !(line[i] == '\r' && line[i + 1] == '\n')
      {
        EndAt(line, i);
      }
    }
  }

  lemma NameIff(line: string)
    ensures IsConnection(line) <==> NamesConnection(line)
  {
    if |line| >= 11 {
      SmallConnection();
      LowerIsAnyCase(line[..11], "connection:");
    }
  }

  lemma SmallConnection()
    ensures NoCapitals("connection:")
  {
    forall i, k | 0 <= i < |"connection:"| && 0 <= k < 26
      ensures "connection:"[i] != UPPER_LETTERS[k]
    {
      LetterTables(k);
    }
  }

  lemma {:induction false} TextIsJoin(lines: seq<string>)
    ensures TextOf(lines) == Join(lines)
  {
    if lines != [] {
      TextIsJoin(lines[1..]);
    }
  }

  /** The places behind one more line. */
  ghost function Shifted(places: seq<nat>): seq<nat> { seq(|places|, i requires 0 <= i < |places| => places[i] + 1) }

  lemma ShiftedIn(places: seq<nat>, j: nat)
    ensures j in Shifted(places) <==> j > 0 && j - 1 in places
  {
    var moved := Shifted(places);
    if j in moved {
      var k :| 0 <= k < |moved| && moved[k] == j;
      assert places[k] == j - 1;
    }
    if j > 0 && j - 1 in places {
      var k :| 0 <= k < |places| && places[k] == j - 1;
      assert moved[k] == j;
    }
  }

  lemma RemainOne(places: seq<nat>, line: string, lines: seq<string>)
    requires RemainAt(places, lines)
    ensures RemainAt(if NamesConnection(line) then Shifted(places) else [0] + Shifted(places), [line] + lines)
  {
    hide NamesConnection;
    var moved := Shifted(places);
    var all := if NamesConnection(line) then moved else [0] + moved;
    forall j | 0 <= j < |[line] + lines|
      ensures j in all <==> !NamesConnection(([line] + lines)[j])
    {
      ShiftedIn(places, j);
      assert j > 0 ==> ([line] + lines)[j] == lines[j - 1];
    }
  }

  lemma {:induction false} OthersRemain(lines: seq<string>) returns (places: seq<nat>)
    ensures RemainAt(places, lines)
    ensures var r := Others(lines); |r| == |places| && forall k :: 0 <= k < |r| ==> places[k] < |lines| && r[k] == lines[places[k]]
  {
    hide RemainAt, IsConnection, NamesConnection;
    if lines == [] {
      NothingRemains();
      return [];
    }
    var rest := OthersRemain(lines[1..]);
    assert lines == [lines[0]] + lines[1..];
    RemainOne(rest, lines[0], lines[1..]);
    NameIff(lines[0]);
    places := if NamesConnection(lines[0]) then Shifted(rest) else [0] + Shifted(rest);
  }

  lemma NothingRemains()
    ensures RemainAt([], [])
  {
  }

  lemma BlockLines(block: string, status: string, headers: seq<string>)
    requires BlockOf(block, status, headers)
    ensures IsBlock(block) && Lines(block[..|block| - 2]) == [status] + headers
  {
    hide StrStr, IsLine, OneLine, Lines, Join;
    var lines := [status] + headers;
    TextIsJoin(lines);
    forall i | 0 <= i < |lines|
      ensures IsLine(lines[i])
    {
      LineIff(lines[i]);
    }
    LinesOfJoin(lines);
    assert block[..|block| - 2] == TextOf(lines);
    OccursWithin(block, BLOCK_END, |block| - 4);
    StrStrIs(block, BLOCK_END, |block| - 4);
  }

  lemma {:induction false} JoinAppend(lines: seq<string>, last: string)
    ensures TextOf(lines + [last]) == TextOf(lines) + last + "\r\n"
  {
    if lines == [] {
      assert [] + [last] == [last] && [last][1..] == [];
      assert TextOf([last]) == last + "\r\n" + TextOf([last][1..]);
    } else {
      assert (lines + [last])[1..] == lines[1..] + [last];
      JoinAppend(lines[1..], last);
      assert lines[0] + "\r\n" + (TextOf(lines[1..]) + last + "\r\n") == lines[0] + "\r\n" + TextOf(lines[1..]) + last + "\r\n";
    }
  }

  /** Instead of a block its status line is sent, the header lines that do not name Connection, in order, and one that says
      what is decided. */
  lemma RewrittenText(block: string, status: string, headers: seq<string>, keep: bool) returns (kept: seq<string>)
    requires BlockOf(block, status, headers)
    ensures IsBlock(block) && Remaining(kept, headers)
    ensures Rewritten(block, keep) ==
            TextOf([status] + kept) + if keep then "Connection: keep-alive\r\n\r\n" else "Connection: close\r\n\r\n"
  {
    hide StrStr, Lines, Join, TextOf, BlockOf, RemainAt, OccursAt;
    BlockLines(block, status, headers);
    var lines := [status] + headers;
    assert lines[1..] == headers;
    kept := Others(headers);
    var places := OthersRemain(headers);
    var last := ConnectionLine(keep);
    TextIsJoin([status] + kept + [last]);
    JoinAppend([status] + kept, last);
    assert "Connection: " + "keep-alive" + "\r\n" + CRLF == "Connection: keep-alive\r\n\r\n";
    assert "Connection: " + "close" + "\r\n" + CRLF == "Connection: close\r\n\r\n";
    var text := TextOf([status] + kept);
    assert text + last + "\r\n" + CRLF == text + (last + "\r\n" + CRLF);
  }

  /** Every block has such lines. */
  lemma BlockParts(block: string) returns (status: string, headers: seq<string>)
    requires IsBlock(block)
    ensures BlockOf(block, status, headers)
  {
    hide StrStr, IsLine, OneLine, Lines, Join;
    BlockHasLine(block);
    var lines := Lines(block[..|block| - 2]);
    LinesAreLines(block[..|block| - 2]);
    status, headers := lines[0], lines[1..];
    assert [status] + headers == lines;
    forall i | 0 <= i < |lines|
      ensures OneLine(lines[i])
    {
      LineIff(lines[i]);
    }
    TextIsJoin(lines);
    EndOfBlock(block);
    JoinedLines(block[..|block| - 2]);
    assert block == block[..|block| - 2] + "\r\n";
    BlockOccurs(block);
  }

  lemma BlockOccurs(block: string)
    requires IsBlock(block)
    ensures OccursAt(block, "\r\n\r\n", |block| - 4) && forall i :: 0 <= i < |block| - 4 ==> !OccursAt(block, "\r\n\r\n", i)
  {
    hide StrStr;
  }

  lemma EndOfBlock(block: string)
    requires IsBlock(block)
    ensures |block| >= 4 && block[|block| - 2..] == CRLF
    ensures var s := block[..|block| - 2]; s[|s| - 2..] == CRLF
  {
    hide StrStr;
    var end := block[|block| - 4..|block|];
    assert end == BLOCK_END;
    assert end[..2] == CRLF && end[2..] == CRLF;
    var s := block[..|block| - 2];
    assert s[|s| - 2..] == end[..2];
    assert block[|block| - 2..] == end[2..];
  }

  /** A text that is empty or ends with the end of a line is that of its lines. */
  lemma {:induction false} JoinedLines(s: string)
    requires s == "" || (|s| >= 2 && s[|s| - 2..] == CRLF)
    ensures Join(Lines(s)) == s
    decreases |s|
  {
    hide StrStr;
    var eol := StrStr(s, CRLF);
    if s == "" {
      NoEnd();
    } else {
      assert OccursAt(s, CRLF, |s| - 2);
      assert 0 <= eol <= |s| - 2 && s[eol..eol + 2] == CRLF;
      var rest := s[eol + 2..];
      if rest != "" {
        RestEnds(s, eol);
      }
      JoinedLines(rest);
      assert s == s[..eol] + CRLF + rest;
      assert ([s[..eol]] + Lines(rest))[1..] == Lines(rest);
    }
  }

  lemma RestEnds(s: string, eol: nat)
    requires |s| >= 2 && s[|s| - 2..] == CRLF && eol + 2 < |s| && s[eol..eol + 2] == CRLF
    ensures var rest := s[eol + 2..]; |rest| >= 2 && rest[|rest| - 2..] == CRLF
  {
    assert s[|s| - 2] == s[|s| - 2..][0] == '\r';
    assert s[eol + 1] == s[eol..eol + 2][1] == '\n';
    var rest := s[eol + 2..];
    assert rest[|rest| - 2..] == s[|s| - 2..];
  }
}
