/** Host names in DNS packets: sequences of labels, each behind its length, up to an empty one. */
module DnsName {
  import opened Text
  import opened ByteBuffer
  import opened Numerals

  const MAX_LABEL: nat := 63
  const MAX_JUMPS: nat := 64

  predicate ValidLabel(part: string) { 0 < |part| <= MAX_LABEL }

  predicate ValidLabels(labels: seq<string>) { forall i :: 0 <= i < |labels| ==> ValidLabel(labels[i]) }

  /** Section 3.1 of RFC 1035. */
  function EncodeLabels(labels: seq<string>): (r: string)
    requires ValidLabels(labels)
    ensures r != ""
  {
    if labels == [] then [0 as char] else [|labels[0]| as char] + labels[0] + EncodeLabels(labels[1..])
  }

  // ---------------------------------------------------------------------
  // Encoding

  /** The first label of a dotted name and the rest behind its dot. */
  function FirstLabel(name: string): string { var dot := IndexOf(name, '.'); if dot < 0 then name else name[..dot] }

  function AfterLabel(name: string): (r: string)
    requires name != ""
    ensures |r| < |name|
  {
    var dot := IndexOf(name, '.');
    if dot < 0 then "" else name[dot + 1..]
  }

  /** The labels of a dotted name; a dot at the end does not count. */
  function SplitName(name: string): seq<string>
    decreases |name|
  {
    if name == "" then [] else [FirstLabel(name)] + SplitName(AfterLabel(name))
  }

  lemma SplitStep(name: string)
    requires name != "" && ValidLabels(SplitName(name))
    ensures ValidLabel(FirstLabel(name)) && ValidLabels(SplitName(AfterLabel(name)))
    ensures EncodeLabels(SplitName(name)) ==
            [|FirstLabel(name)| as char] + FirstLabel(name) + EncodeLabels(SplitName(AfterLabel(name)))
  {
    var labels := SplitName(name);
    assert labels[0] == FirstLabel(name) && labels[1..] == SplitName(AfterLabel(name));
  }

  lemma SplitFails(name: string)
    requires name != ""
    ensures ValidLabels(SplitName(name)) <==> ValidLabel(FirstLabel(name)) && ValidLabels(SplitName(AfterLabel(name)))
  {
    var labels := SplitName(name);
    assert labels[0] == FirstLabel(name) && labels[1..] == SplitName(AfterLabel(name));
    assert forall i :: 0 <= i < |labels| - 1 ==> labels[i + 1] == labels[1..][i];
  }

  /** Writes a name at `at`, at most `len` bytes; -1 if a label is bad or the space too small. */
  method EncodeName(name: string, dst: array<char>, at: nat, len: nat) returns (r: int)
    requires at + len <= dst.Length
    modifies dst
    ensures r == if ValidLabels(SplitName(name)) && |EncodeLabels(SplitName(name))| <= len then |EncodeLabels(SplitName(name))| else -1
    ensures r >= 0 ==> dst[..] == Splice(old(dst[..]), at, EncodeLabels(SplitName(name)))
    ensures Inside(old(dst[..]), dst[..], at, len)
  {
    hide Splice, Inside, FirstLabel, AfterLabel, EncodeLabels, ValidLabels;
    ghost var before := dst[..];
    ghost var done := "";
    var pos, rest := 0, name;
    SpliceNothing(before, at);
    InsideSame(before, at, len);
    while rest != ""
      invariant pos == |done| <= len && dst[..] == Splice(before, at, done) && Inside(before, dst[..], at, len)
      invariant ValidLabels(SplitName(name)) <==> ValidLabels(SplitName(rest))
      invariant ValidLabels(SplitName(name)) ==> EncodeLabels(SplitName(name)) == done + EncodeLabels(SplitName(rest))
      decreases |rest|
    {
      SplitFails(rest);
      var part := FirstLabel(rest);
      if ValidLabels(SplitName(rest)) {
        SplitStep(rest);
        NotEmpty(SplitName(AfterLabel(rest)));
      }
      if |part| == 0 || |part| > MAX_LABEL || pos + 1 + |part| >= len {
        return -1;
      }
      Put(dst, at + pos, [|part| as char]);
      Put(dst, at + pos + 1, part);
      SpliceAfter(before, at, done, [|part| as char]);
      SpliceAfter(before, at, done + [|part| as char], part);
      Regroup(done, [|part| as char], part, if ValidLabels(SplitName(rest)) then EncodeLabels(SplitName(AfterLabel(rest))) else "");
      done := done + [|part| as char] + part;
      SpliceInside(before, at, done, at, len);
      pos := pos + 1 + |part|;
      rest := AfterLabel(rest);
    }
    NoLabels();
    if pos >= len {
      return -1;
    }
    Put(dst, at + pos, [0 as char]);
    SpliceAfter(before, at, done, [0 as char]);
    SpliceInside(before, at, done + [0 as char], at, len);
    return pos + 1;
  }

  lemma Regroup(a: string, b: string, c: string, d: string)
    ensures a + (b + c + d) == a + b + c + d
  {
  }

  lemma NotEmpty(labels: seq<string>)
    requires ValidLabels(labels)
    ensures |EncodeLabels(labels)| >= 1
  {
  }

  lemma NoLabels()
    ensures SplitName("") == [] && ValidLabels([]) && EncodeLabels([]) == [0 as char]
  {
  }

  // ---------------------------------------------------------------------
  // Decoding

  function Min(a: int, b: int): int { if a < b then a else b }

  /** A label behind the name so far, with a dot between them, cut at `cap` bytes. */
  function AddLabel(name: string, part: string, cap: nat): (r: string)
    requires |name| <= cap
    ensures |r| <= cap
  {
    var n := if 0 < |name| < cap then name + "." else name;
    n + Lower(part)[..Min(|part|, cap - |n|)]
  }

  datatype Decoded = Decoded(name: string, size: nat)

  /** The name is complete if its end in the place where it began is known. */
  function Done(name: string, firstEnd: nat, off: nat): Option<Decoded> {
    if firstEnd > off then Some(Decoded(name, firstEnd - off)) else None
  }

  /** Follows labels and compression pointers. */
  function Walk(b: string, off: nat, pos: nat, jumps: nat, firstEnd: nat, name: string, cap: nat): Option<Decoded>
    requires jumps <= MAX_JUMPS && |name| <= cap
    decreases MAX_JUMPS - jumps, |b| - pos
  {
    if pos >= |b| then Done(name, firstEnd, off)
    else
      var len := b[pos] as nat;
      if len == 0 then Done(name, if firstEnd == 0 then pos + 1 else firstEnd, off)
      else if len >= 0xC0 then
        if pos + 1 >= |b| then None
        else
          var target := len % 64 * 256 + b[pos + 1] as nat;
          if target >= |b| || jumps + 1 > MAX_JUMPS then None
          else Walk(b, off, target, jumps + 1, if firstEnd == 0 then pos + 2 else firstEnd, name, cap)
      else if len > MAX_LABEL || pos + 1 + len > |b| then None
      else Walk(b, off, pos + 1 + len, jumps, firstEnd, AddLabel(name, b[pos + 1..pos + 1 + len], cap), cap)
  }

  /** Decodes the name at off into `out`, at most outlen bytes with the final zero. */
  method DecodeName(buf: string, off: nat, out: array<char>, outlen: nat) returns (r: int)
    requires 0 < outlen <= out.Length
    modifies out
    ensures match Walk(buf, off, off, 0, 0, "", outlen - 1)
            case None => r == -1
            case Some(d) => r == d.size && |d.name| < outlen && out[..|d.name|] == d.name && out[|d.name|] == 0 as char
    ensures out[outlen..] == old(out[outlen..])
  {
    hide AddLabel;
    ghost var name := "";
    var pos, opos, jumps, firstEnd := off, 0, 0, 0;
    while pos < |buf|
      invariant 0 <= pos && |name| == opos <= outlen - 1 && jumps <= MAX_JUMPS && out[..opos] == name
      invariant Walk(buf, off, pos, jumps, firstEnd, name, outlen - 1) == Walk(buf, off, off, 0, 0, "", outlen - 1)
      invariant out[outlen..] == old(out[outlen..])
      decreases MAX_JUMPS - jumps, |buf| - pos
    {
      var len := buf[pos] as nat;
      if len == 0 {
        firstEnd := if firstEnd == 0 then pos + 1 else firstEnd;
        break;
      }
      if len >= 0xC0 {
        if pos + 1 >= |buf| {
          return -1;
        }
        firstEnd := if firstEnd == 0 then pos + 2 else firstEnd;
        var target := len % 64 * 256 + buf[pos + 1] as nat;
        if target >= |buf| || jumps + 1 > MAX_JUMPS {
          return -1;
        }
        jumps := jumps + 1;
        pos := target;
        continue;
      }
      if len > MAX_LABEL || pos + 1 + len > |buf| {
        return -1;
      }
      opos := CopyLabel(buf[pos + 1..pos + 1 + len], out, opos, outlen, name);
      name := AddLabel(name, buf[pos + 1..pos + 1 + len], outlen - 1);
      pos := pos + 1 + len;
    }
    out[opos] := 0 as char;
    return if firstEnd > off then firstEnd - off else -1;
  }

  /** Copies a label in lower case, as far as there is room. */
  method CopyLabel(part: string, out: array<char>, opos: nat, outlen: nat, ghost name: string) returns (next: nat)
    requires opos < outlen <= out.Length && |name| == opos && out[..opos] == name
    modifies out
    ensures var r := AddLabel(name, part, outlen - 1); next == |r| && out[..next] == r
    ensures out[outlen..] == old(out[outlen..])
  {
    hide Lower;
    next := opos;
    if opos > 0 && opos < outlen - 1 {
      out[opos] := '.';
      next := opos + 1;
    }
    ghost var n := if 0 < |name| < outlen - 1 then name + "." else name;
    ghost var text := n;
    assert out[..next] == n;
    var i := 0;
    assert Lower(part)[..0] == "";
    while i < |part| && next < outlen - 1
      invariant i <= |part| && next == |n| + i <= outlen - 1
      invariant out[..next] == text && text == n + Lower(part)[..i]
      invariant out[outlen..] == old(out[outlen..])
    {
      out[next] := ToLower(part[i]);
      assert out[..next + 1] == out[..next] + [ToLower(part[i])];
      TakeNext(n, Lower(part), i);
      text := text + [ToLower(part[i])];
      next := next + 1;
      i := i + 1;
    }
  }

  lemma TakeNext(n: string, s: string, i: nat)
    requires i < |s|
    ensures n + s[..i + 1] == n + s[..i] + [s[i]]
  {
  }

  // ---------------------------------------------------------------------
  // Decoding what was encoded

  function Dotted(name: string, part: string): string { (if name == "" then "" else name + ".") + Lower(part) }

  /** Labels behind a name, with dots between them and in lower case. */
  function JoinOnto(name: string, labels: seq<string>): string
    decreases |labels|
  {
    if labels == [] then name else JoinOnto(Dotted(name, labels[0]), labels[1..])
  }

  /** At most cap bytes. */
  function Cut(s: string, cap: nat): (r: string)
    ensures |r| <= cap
  {
    s[..Min(|s|, cap)]
  }

  lemma AddCut(name: string, part: string, cap: nat)
    requires part != ""
    ensures AddLabel(Cut(name, cap), part, cap) == Cut(Dotted(name, part), cap)
  {
    hide Lower;
    if |name| < cap {
      assert Cut(name, cap) == name;
      var n := if name == "" then "" else name + ".";
      assert n == if 0 < |name| < cap then name + "." else name;
      CutConcat(n, Lower(part), cap);
    } else {
      assert Lower(part)[..0] == "";
    }
  }

  lemma CutConcat(n: string, s: string, cap: nat)
    requires |n| <= cap
    ensures n + s[..Min(|s|, cap - |n|)] == Cut(n + s, cap)
  {
  }

  /** The offset in a pointer. */
  ghost function PointsTo(m: string, pos: nat): nat
    requires pos + 1 < |m| && 192 <= m[pos] as int
  {
    (m[pos] as int - 192) * 256 + m[pos + 1] as int
  }

  /** Where a name ends in the place where it begins: behind the empty label or behind a pointer; 0 if it has no end. */
  ghost function EndOf(m: string, pos: nat): nat
    decreases |m| - pos
  {
    if pos >= |m| then 0
    else if m[pos] as int == 0 then pos + 1
    else if m[pos] as int >= 192 then pos + 2
    else EndOf(m, pos + 1 + m[pos] as int)
  }

  /** Section 4.1.4 of RFC 1035: at this position there is a name with these labels, which uses so many pointers.
      A name behind a pointer may also end with the packet. */
  ghost predicate NameAt(m: string, pos: nat, labels: seq<string>, pointers: nat)
    decreases pointers, |labels|
  {
    || (labels == [] && pointers == 0 && (pos >= |m| || m[pos] as int == 0))
    || (&& pos < |m| && labels != [] && 1 <= |labels[0]| <= 63 && m[pos] as int == |labels[0]| && Holds(m, pos + 1, labels[0])
        && NameAt(m, pos + 1 + |labels[0]|, labels[1..], pointers))
    || (&& pointers > 0 && pos + 1 < |m| && 192 <= m[pos] as int < 256 && PointsTo(m, pos) < |m|
        && NameAt(m, PointsTo(m, pos), labels, pointers - 1))
  }

  lemma NameAtCases(m: string, pos: nat, labels: seq<string>, pointers: nat)
    requires NameAt(m, pos, labels, pointers)
    ensures pos >= |m| || m[pos] as int == 0 ==> labels == [] && pointers == 0
    ensures pos < |m| && m[pos] as int >= 192 ==>
              pointers > 0 && pos + 1 < |m| && PointsTo(m, pos) < |m| && NameAt(m, PointsTo(m, pos), labels, pointers - 1)
              && PointsTo(m, pos) == m[pos] as nat % 64 * 256 + m[pos + 1] as nat
    ensures pos < |m| && 0 < m[pos] as int < 192 ==>
              labels != [] && 1 <= |labels[0]| <= 63 && m[pos] as int == |labels[0]| && Holds(m, pos + 1, labels[0])
              && NameAt(m, pos + 1 + |labels[0]|, labels[1..], pointers)
  {
  }

  /** From such a position the name is read, cut to the space, unless more than 64 pointers are followed in all. */
  lemma {:induction false} WalkReads(b: string, off: nat, pos: nat, jumps: nat, firstEnd: nat, name: string, cap: nat,
                                     labels: seq<string>, pointers: nat)
    requires NameAt(b, pos, labels, pointers) && jumps <= 64
    ensures Walk(b, off, pos, jumps, firstEnd, Cut(name, cap), cap) ==
            if jumps + pointers <= 64 then Done(Cut(JoinOnto(name, labels), cap), if firstEnd == 0 then EndOf(b, pos) else firstEnd, off)
            else None
    decreases pointers, |labels|
  {
    hide AddLabel, Cut, Dotted, Done, Holds, NameAt, PointsTo;
    NameAtCases(b, pos, labels, pointers);
    var len := if pos < |b| then b[pos] as nat else 0;
    if len >= 192 {
      var target := PointsTo(b, pos);
      if jumps < 64 {
        WalkReads(b, off, target, jumps + 1, if firstEnd == 0 then pos + 2 else firstEnd, name, cap, labels, pointers - 1);
      }
    } else if len > 0 {
      HoldsIs(b, pos + 1, labels[0]);
      AddCut(name, labels[0], cap);
      WalkReads(b, off, pos + 1 + len, jumps, firstEnd, Dotted(name, labels[0]), cap, labels[1..], pointers);
    }
  }

  /** Nothing else is read. */
  lemma {:induction false} WalkSound(b: string, off: nat, pos: nat, jumps: nat, firstEnd: nat, name: string, cap: nat)
    returns (labels: seq<string>, pointers: nat)
    requires jumps <= 64 && |name| <= cap && IsBytes(b)
    requires Walk(b, off, pos, jumps, firstEnd, name, cap).Some?
    ensures NameAt(b, pos, labels, pointers) && jumps + pointers <= 64
    decreases 64 - jumps, |b| - pos
  {
    hide AddLabel, Done, Holds;
    var len := if pos < |b| then b[pos] as nat else 0;
    if len == 0 {
      labels, pointers := [], 0;
    } else if len >= 192 {
      labels, pointers := WalkSound(b, off, PointsTo(b, pos), jumps + 1, if firstEnd == 0 then pos + 2 else firstEnd, name, cap);
      pointers := pointers + 1;
    } else {
      var part := b[pos + 1..pos + 1 + len];
      labels, pointers := WalkSound(b, off, pos + 1 + len, jumps, firstEnd, AddLabel(name, part, cap), cap);
      HoldsSlice(b, pos + 1, part);
      assert ([part] + labels)[1..] == labels;
      labels := [part] + labels;
    }
  }

  /** A name is read exactly when labels and at most 64 pointers make it up and its end is known. */
  lemma NameReadIff(b: string, off: nat, cap: nat)
    requires IsBytes(b)
    ensures Walk(b, off, off, 0, 0, "", cap).Some? <==>
            EndOf(b, off) > off && exists labels, pointers :: NameAt(b, off, labels, pointers) && pointers <= 64
  {
    hide Walk, NameAt, EndOf;
    assert Cut("", cap) == "";
    forall labels, pointers | NameAt(b, off, labels, pointers)
      ensures Walk(b, off, off, 0, 0, "", cap) ==
              if pointers <= 64 then Done(Cut(JoinOnto("", labels), cap), EndOf(b, off), off) else None
    {
      WalkReads(b, off, off, 0, 0, "", cap, labels, pointers);
    }
    if Walk(b, off, off, 0, 0, "", cap).Some? {
      var labels, pointers := WalkSound(b, off, off, 0, 0, "", cap);
    }
  }

  /** What is at a position where labels are encoded. */
  lemma LabelAt(b: string, pos: nat, labels: seq<string>)
    requires ValidLabels(labels) && Holds(b, pos, EncodeLabels(labels))
    ensures pos < |b| && (labels == [] ==> b[pos] as nat == 0)
    ensures labels != [] ==>
              && b[pos] as nat == |labels[0]| && pos + 1 + |labels[0]| < |b|
              && b[pos + 1..pos + 1 + |labels[0]|] == labels[0]
              && ValidLabels(labels[1..]) && Holds(b, pos + 1 + |labels[0]|, EncodeLabels(labels[1..]))
              && |EncodeLabels(labels)| == 1 + |labels[0]| + |EncodeLabels(labels[1..])|
  {
    hide Holds, EncodeLabels;
    var whole := EncodeLabels(labels);
    HoldsIs(b, pos, whole);
    assert b[pos] == b[pos..pos + |whole|][0];
    EncodeParts(labels);
    if labels != [] {
      var len, first, rest := [|labels[0]| as char], labels[0], EncodeLabels(labels[1..]);
      HoldsPart(b, pos, len, first, rest);
      HoldsIs(b, pos + 1, first);
      assert whole == (len + first) + rest + "";
      HoldsPart(b, pos, len + first, rest, "");
      HoldsIs(b, pos + 1 + |first|, rest);
      NotEmpty(labels[1..]);
    }
  }

  lemma EncodeParts(labels: seq<string>)
    requires ValidLabels(labels)
    ensures labels == [] ==> EncodeLabels(labels) == [0 as char]
    ensures labels != [] ==> ValidLabels(labels[1..]) && EncodeLabels(labels) == [|labels[0]| as char] + labels[0] + EncodeLabels(labels[1..])
  {
  }

  lemma {:induction false} EncodedNameAt(b: string, pos: nat, labels: seq<string>)
    requires ValidLabels(labels) && Holds(b, pos, EncodeLabels(labels))
    ensures NameAt(b, pos, labels, 0) && EndOf(b, pos) == pos + |EncodeLabels(labels)|
    decreases |labels|
  {
    hide Holds, EncodeLabels;
    LabelAt(b, pos, labels);
    if labels == [] {
      NoLabels();
    } else {
      assert ValidLabel(labels[0]);
      assert Holds(b, pos + 1, labels[0]) by { HoldsSlice(b, pos + 1, labels[0]); }
      EncodedNameAt(b, pos + 1 + |labels[0]|, labels[1..]);
    }
  }

  lemma HoldsSlice(b: string, at: nat, s: string)
    requires at + |s| <= |b| && b[at..at + |s|] == s
    ensures Holds(b, at, s)
  {
  }

  /** The decoded name of encoded labels: joined by dots, in lower case, and nothing beyond them read. */
  lemma LabelsDecode(b: string, off: nat, labels: seq<string>, cap: nat)
    requires ValidLabels(labels) && Holds(b, off, EncodeLabels(labels))
    ensures Walk(b, off, off, 0, 0, "", cap) == Some(Decoded(Cut(JoinOnto("", labels), cap), |EncodeLabels(labels)|))
  {
    hide Walk, JoinOnto, EncodeLabels, Holds, NameAt;
    NotEmpty(labels);
    EncodedNameAt(b, off, labels);
    assert Cut("", cap) == "";
    WalkReads(b, off, off, 0, 0, "", cap, labels, 0);
  }

  // ---------------------------------------------------------------------
  // The name as text

  /** The labels with a dot between any two. */
  ghost function Joined(labels: seq<string>): string {
    if labels == [] then "" else if |labels| == 1 then labels[0] else labels[0] + "." + Joined(labels[1..])
  }

  lemma {:induction false} JoinedIs(prefix: string, labels: seq<string>)
    requires ValidLabels(labels) && labels != []
    ensures JoinOnto(prefix, labels) == Before(prefix) + Lower(Joined(labels))
    decreases |labels|
  {
    hide Before, Lower, Dotted;
    DottedIs(prefix, labels[0]);
    var next := Dotted(prefix, labels[0]);
    if |labels| == 1 {
      assert JoinOnto(next, labels[1..]) == next;
    } else {
      assert ValidLabel(labels[0]);
      JoinedIs(next, labels[1..]);
      JoinParts(prefix, labels[0], Joined(labels[1..]), Joined(labels));
    }
  }

  lemma JoinedLower(labels: seq<string>)
    requires ValidLabels(labels)
    ensures JoinOnto("", labels) == Lower(Joined(labels))
  {
    if labels != [] {
      JoinedIs("", labels);
    }
  }

  /** What a question for these labels is taken to ask: in small letters, cut at 255 bytes and at a zero byte. */
  ghost predicate AskedName(labels: seq<string>, name: string) {
    exists k :: AskedPart(Joined(labels), k, name)
  }

  ghost predicate AskedPart(whole: string, k: int, name: string) {
    && 0 <= k <= |whole| && k <= 255 && IsCString(name)
    && AnyCase(whole[..k], name) && NoCapitals(name)
    && (k < |whole| && k < 255 ==> whole[k] as int == 0)
  }

  lemma {:induction false} UpToZeroParts(b: string)
    ensures var u := UpToZero(b); |u| <= |b| && u == b[..|u|] && (|u| < |b| ==> b[|u|] as nat == 0)
  {
    if b != "" && b[0] as nat != 0 {
      UpToZeroParts(b[1..]);
    }
  }

  lemma LowerSlice(s: string, k: nat)
    requires k <= |s|
    ensures Lower(s[..k]) == Lower(s)[..k]
  {
  }

  lemma {:induction false} LowerNoCapitals(s: string)
    ensures NoCapitals(Lower(s))
  {
    forall i, k | 0 <= i < |s| && 0 <= k < 26
      ensures Lower(s)[i] != UPPER_LETTERS[k]
    {
      LetterTables(k);
    }
  }

  /** Exactly one name is asked for. */
  lemma AskedNameIs(labels: seq<string>, name: string)
    requires ValidLabels(labels)
    ensures AskedName(labels, name) <==> name == UpToZero(Cut(JoinOnto("", labels), 255))
  {
    hide UpToZero, Lower, AnyCase, NoCapitals, Joined, ValidLabels;
    var whole := Joined(labels);
    var text := Lower(whole);
    JoinedLower(labels);
    var d := Cut(text, 255);
    forall k | AskedPart(whole, k, name)
      ensures name == UpToZero(d)
    {
      LowerSlice(whole, k);
      LowerIsAnyCase(whole[..k], name);
      assert d[..k] == text[..k];
      assert k < |d| ==> d[k] == ToLower(whole[k]);
      UpToZeroCut(d, k);
    }
    if name == UpToZero(d) {
      var k := |name|;
      UpToZeroParts(d);
      LowerSlice(whole, k);
      assert d[..k] == text[..k];
      LowerNoCapitals(whole[..k]);
      LowerIsAnyCase(whole[..k], name);
      assert k < |d| ==> d[k] == ToLower(whole[k]);
      assert AskedPart(whole, k, name);
    }
  }

  // ---------------------------------------------------------------------
  // Host names

  predicate HostChar(c: char) { 'a' <= c <= 'z' || 'A' <= c <= 'Z' || '0' <= c <= '9' || c == '-' || c == '_' }

  predicate HostLabel(part: string) {
    ValidLabel(part) && part[0] != '-' && part[|part| - 1] != '-' && forall i :: 0 <= i < |part| ==> HostChar(part[i])
  }

  /** Sections 2.3.1 of RFC 1035 and 2.1 of RFC 1123, with underscores. */
  predicate ValidHostname(name: string) {
    0 < |name| <= 253 && forall i :: 0 <= i < |SplitName(name)| ==> HostLabel(SplitName(name)[i])
  }

  lemma SplitParts(name: string)
    requires name != "" && name[|name| - 1] != '.'
    ensures AfterLabel(name) == "" ==> FirstLabel(name) == name
    ensures var rest := AfterLabel(name);
            rest != "" ==> rest[|rest| - 1] != '.' && name == FirstLabel(name) + "." + rest
  {
  }

  function Before(prefix: string): string { if prefix == "" then "" else prefix + "." }

  lemma JoinParts(prefix: string, first: string, rest: string, name: string)
    requires first != "" && name == first + "." + rest
    ensures Before(Dotted(prefix, first)) + Lower(rest) == Before(prefix) + Lower(name)
  {
    LowerConcat(first, rest, name);
    var p, f, r := Before(prefix), Lower(first), Lower(rest);
    assert p + f + "." + r == p + (f + "." + r);
  }

  lemma {:induction false} SplitJoin(prefix: string, name: string)
    requires name != "" && name[|name| - 1] != '.' && ValidLabels(SplitName(name))
    ensures JoinOnto(prefix, SplitName(name)) == Before(prefix) + Lower(name)
    decreases |name|
  {
    hide FirstLabel, AfterLabel, Before, Lower;
    var labels, first, rest := SplitName(name), FirstLabel(name), AfterLabel(name);
    assert labels[0] == first && labels[1..] == SplitName(rest);
    SplitParts(name);
    SplitFails(name);
    if rest == "" {
      NoLabels();
      DottedIs(prefix, name);
    } else {
      SplitJoin(Dotted(prefix, first), rest);
      JoinParts(prefix, first, rest, name);
    }
  }

  lemma DottedIs(prefix: string, part: string)
    ensures Dotted(prefix, part) == Before(prefix) + Lower(part)
  {
  }

  lemma {:induction false} LowerAppend(a: string, b: string)
    ensures Lower(a + b) == Lower(a) + Lower(b)
  {
    if a == "" {
      assert a + b == b;
    } else {
      assert (a + b)[0] == a[0] && (a + b)[1..] == a[1..] + b;
      LowerAppend(a[1..], b);
    }
  }

  lemma LowerConcat(a: string, b: string, name: string)
    requires name == a + "." + b
    ensures Lower(name) == Lower(a) + "." + Lower(b)
  {
    LowerAppend(a + ".", b);
    LowerAppend(a, ".");
    assert Lower(".") == ".";
  }

  lemma HostnameLabels(name: string)
    requires ValidHostname(name)
    ensures ValidLabels(SplitName(name))
  {
  }

  /** Decoding the encoding of a valid host name without a dot at its end gives the name in
      lower case, and takes exactly the bytes of the encoding. */
  lemma HostnameRoundTrip(b: string, off: nat, name: string, cap: nat)
    requires ValidHostname(name) && name[|name| - 1] != '.' && |name| <= cap
    requires ValidLabels(SplitName(name)) && Holds(b, off, EncodeLabels(SplitName(name)))
    ensures Walk(b, off, off, 0, 0, "", cap) == Some(Decoded(Lower(name), |EncodeLabels(SplitName(name))|))
  {
    SplitJoin("", name);
    assert Before("") + Lower(name) == Lower(name);
    assert Cut(Lower(name), cap) == Lower(name);
    LabelsDecode(b, off, SplitName(name), cap);
  }

  /** Encoding and decoding in place. */
  method EncodeDecode(name: string, buf: array<char>, out: array<char>) returns (n: int, r: int)
    requires ValidHostname(name) && name[|name| - 1] != '.'
    requires out.Length >= 256 && buf.Length >= |EncodeLabels(SplitName(name))| && buf != out
    modifies buf, out
    ensures n == r == |EncodeLabels(SplitName(name))|
    ensures out[..|name|] == Lower(name) && out[|name|] == 0 as char
  {
    hide ValidHostname, Walk;
    HostnameLabels(name);
    NotLong(name);
    n := EncodeName(name, buf, 0, buf.Length);
    SpliceHolds(old(buf[..]), 0, EncodeLabels(SplitName(name)));
    var packet := buf[..];
    HostnameRoundTrip(packet, 0, name, 255);
    r := DecodeName(packet, 0, out, 256);
  }

  lemma NotLong(name: string)
    requires ValidHostname(name)
    ensures |name| <= 253
  {
  }
}
