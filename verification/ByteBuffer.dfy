/** Writing into part of a fixed-size buffer. */
module ByteBuffer {
  import opened Text

  /** The buffer with `text` written at `at`. */
  ghost function Splice(b: string, at: nat, text: string): (r: string)
    requires at + |text| <= |b|
    ensures |r| == |b|
  {
    b[..at] + text + b[at + |text|..]
  }

  lemma SpliceNothing(b: string, at: nat)
    requires at <= |b|
    ensures Splice(b, at, "") == b
  {
  }

  lemma SpliceAfter(b: string, at: nat, x: string, y: string)
    requires at + |x| + |y| <= |b|
    ensures Splice(Splice(b, at, x), at + |x|, y) == Splice(b, at, x + y)
  {
    var c := Splice(b, at, x);
    assert c[..at + |x|] == b[..at] + x;
    assert c[at + |x| + |y|..] == b[at + |x| + |y|..];
  }

  lemma SpliceBefore(b: string, at: nat, x: string, y: string)
    requires at + |x| + |y| <= |b|
    ensures Splice(Splice(b, at + |x|, y), at, x) == Splice(b, at, x + y)
  {
    var c := Splice(b, at + |x|, y);
    assert c[..at] == b[..at];
    assert c[at + |x|..] == y + b[at + |x| + |y|..];
  }

  /** Nothing outside the `len` bytes at `off` has changed. */
  ghost predicate Inside(b: string, c: string, off: nat, len: nat) {
    |b| == |c| && off + len <= |b| && c[..off] == b[..off] && c[off + len..] == b[off + len..]
  }

  lemma SpliceInside(b: string, at: nat, text: string, off: nat, len: nat)
    requires off <= at && at + |text| <= off + len <= |b|
    ensures Inside(b, Splice(b, at, text), off, len)
  {
    var c := Splice(b, at, text);
    assert c[..off] == b[..off];
    assert c[off + len..] == b[off + len..];
  }

  lemma InsideTrans(b: string, c: string, d: string, off: nat, len: nat, off': nat, len': nat)
    requires Inside(b, c, off, len) && Inside(c, d, off', len') && off <= off' && off' + len' <= off + len
    ensures Inside(b, d, off, len)
  {
    assert d[..off] == d[..off'][..off] == c[..off'][..off] == c[..off];
    assert d[off + len..] == d[off' + len'..][off + len - off' - len'..] == c[off' + len'..][off + len - off' - len'..] == c[off + len..];
  }

  method Put(buf: array<char>, at: nat, text: string)
    requires at + |text| <= buf.Length
    modifies buf
    ensures buf[..] == Splice(old(buf[..]), at, text)
  {
    ghost var before := buf[..];
    forall i | 0 <= i < |text| {
      buf[at + i] := text[i];
    }
    assert buf[..at] == before[..at] && buf[at..at + |text|] == text && buf[at + |text|..] == before[at + |text|..];
    assert buf[..] == buf[..at] + buf[at..at + |text|] + buf[at + |text|..];
  }

  lemma InsideSame(b: string, off: nat, len: nat)
    requires off + len <= |b|
    ensures Inside(b, b, off, len)
  {
  }

  lemma SpliceHolds(b: string, at: nat, text: string)
    requires at + |text| <= |b|
    ensures Holds(Splice(b, at, text), at, text)
  {
  }

  /** A C string in a buffer. */
  method ReadText(buf: array<char>, pos: nat, end: nat) returns (s: CString)
    requires pos <= end <= buf.Length
    ensures s == UpToZero(buf[..][pos..end])
  {
    var r := pos;
    while r < end && buf[r] as nat != 0
      invariant pos <= r <= end && forall i :: pos <= i < r ==> buf[i] as nat != 0
    {
      r := r + 1;
    }
    assert forall i :: 0 <= i < r - pos ==> buf[..][pos..r][i] == buf[pos + i];
    s := buf[..][pos..r];
    SliceTake(buf[..], pos, end, r - pos);
    UpToZeroCut(buf[..][pos..end], r - pos);
  }

  /** Replaces a part of what was written. */
  lemma SplicePatch(b: string, at: nat, x: string, y: string, y': string, z: string)
    requires at + |x| + |y| + |z| <= |b| && |y| == |y'|
    ensures Splice(Splice(b, at, x + y + z), at + |x|, y') == Splice(b, at, x + y' + z)
  {
    var pre, post := b[..at], b[at + |x + y + z|..];
    var c := Splice(b, at, x + y + z);
    Regrouped(pre, x, y, z, post);
    Regrouped(pre, x, y', z, post);
    assert c == (pre + x) + (y + (z + post));
    Ends(pre + x, y, z + post);
  }

  lemma Regrouped(pre: string, x: string, y: string, z: string, post: string)
    ensures pre + (x + y + z) + post == (pre + x) + (y + (z + post)) == (pre + x) + y + (z + post)
  {
  }

  lemma Ends(front: string, y: string, back: string)
    ensures (front + (y + back))[..|front|] == front && (front + (y + back))[|front| + |y|..] == back
  {
  }
}
