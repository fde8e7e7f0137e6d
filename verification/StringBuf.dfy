/** The growable, NUL-terminated byte buffer under the request parser. */
module StringBuf {
  import opened Text

  const STRINGBUF_DEFAULT_CAP: nat := 0x1_0000
  const STRINGBUF_MAX_CAP: nat := 0x400_0000

  /** Capacity that a growing buffer asks for. */
  function GrownCapacity(capacity: nat, need: nat): nat {
    var doubled := if 2 * capacity < need then need else 2 * capacity;
    if doubled < 128 then 128 else doubled
  }

  /** Whether a buffer of this capacity can be made to hold `need` bytes and the terminator. */
  predicate CanReserve(maxCapacity: nat, capacity: nat, need: nat) {
    need + 1 <= capacity || GrownCapacity(capacity, need + 1) <= maxCapacity
  }

  /** Capacity after a request for room for `need` bytes. */
  function CapacityAfter(maxCapacity: nat, capacity: nat, need: nat): nat {
    if need + 1 <= capacity || !CanReserve(maxCapacity, capacity, need) then capacity else GrownCapacity(capacity, need + 1)
  }

  /** There is room for n bytes and the terminator, or can be made, exactly if they and twice the capacity, and 128
      bytes, are allowed; a buffer that grows takes the largest of the three. */
  lemma GrowthIs(maxCapacity: nat, capacity: nat, n: nat)
    ensures CanReserve(maxCapacity, capacity, n) <==> n < capacity || (n < maxCapacity && 2 * capacity <= maxCapacity && 128 <= maxCapacity)
    ensures var c := CapacityAfter(maxCapacity, capacity, n);
            if n < capacity || !CanReserve(maxCapacity, capacity, n) then c == capacity
            else c >= 2 * capacity && c > n && c >= 128 && c in {2 * capacity, n + 1, 128}
  {
  }

  /** Contents and capacity. */
  datatype Store = Store(text: string, capacity: nat)

  /** Whether a piece can be appended; an empty one always can, without effect. */
  predicate Fits(maxCapacity: nat, s: Store, piece: string) {
    piece == "" || CanReserve(maxCapacity, s.capacity, |s.text| + |piece|)
  }

  /** The store after an attempt to append: unchanged if the piece does not fit. */
  function Added(maxCapacity: nat, s: Store, piece: string): Store {
    if piece == "" || !Fits(maxCapacity, s, piece) then s
    else Store(s.text + piece, CapacityAfter(maxCapacity, s.capacity, |s.text| + |piece|))
  }

  function AddedAll(maxCapacity: nat, s: Store, pieces: seq<string>): Store {
    if pieces == [] then s else Added(maxCapacity, AddedAll(maxCapacity, s, pieces[..|pieces| - 1]), pieces[|pieces| - 1])
  }

  predicate AllFit(maxCapacity: nat, s: Store, pieces: seq<string>) {
    pieces == [] ||
    (AllFit(maxCapacity, s, pieces[..|pieces| - 1]) && Fits(maxCapacity, AddedAll(maxCapacity, s, pieces[..|pieces| - 1]), pieces[|pieces| - 1]))
  }

  lemma AddedOne(maxCapacity: nat, s: Store, piece: string)
    ensures AddedAll(maxCapacity, s, [piece]) == Added(maxCapacity, s, piece)
  {
    hide Added;
    assert [piece][..0] == [];
  }

  lemma {:induction false} AddedTwo(maxCapacity: nat, s: Store, a: seq<string>, b: seq<string>)
    ensures AddedAll(maxCapacity, s, a + b) == AddedAll(maxCapacity, AddedAll(maxCapacity, s, a), b)
  {
    hide Added;
    if b == [] {
      assert a + b == a;
    } else {
      var last := |b| - 1;
      assert (a + b)[..|a + b| - 1] == a + b[..last];
      AddedTwo(maxCapacity, s, a, b[..last]);
    }
  }

  /** Everything is appended exactly when every piece fits. */
  lemma {:induction false} AddedText(maxCapacity: nat, s: Store, pieces: seq<string>)
    ensures AllFit(maxCapacity, s, pieces) ==> AddedAll(maxCapacity, s, pieces).text == s.text + Concat(pieces)
    ensures !AllFit(maxCapacity, s, pieces) ==> |AddedAll(maxCapacity, s, pieces).text| < |s.text| + |Concat(pieces)|
    ensures |AddedAll(maxCapacity, s, pieces).text| <= |s.text| + |Concat(pieces)|
  {
    hide CanReserve, CapacityAfter;
    if pieces == [] {
      assert s.text + "" == s.text;
    } else {
      var init, last := pieces[..|pieces| - 1], pieces[|pieces| - 1];
      AddedText(maxCapacity, s, init);
      assert s.text + Concat(init) + last == s.text + (Concat(init) + last);
    }
  }

  /** Below half of the maximal capacity everything fits. */
  lemma {:induction false} ShortTextFits(maxCapacity: nat, s: Store, pieces: seq<string>)
    requires |s.text| + |Concat(pieces)| < maxCapacity / 2 && maxCapacity >= 128
    ensures AllFit(maxCapacity, s, pieces)
  {
    hide CanReserve, CapacityAfter, Added;
    if pieces != [] {
      var init, last := pieces[..|pieces| - 1], pieces[|pieces| - 1];
      ShortTextFits(maxCapacity, s, init);
      AddedText(maxCapacity, s, init);
      SmallAppendsFit(maxCapacity, s.capacity, |s.text| + |Concat(pieces)|);
      var t := AddedAll(maxCapacity, s, init);
      SmallAppendsFit(maxCapacity, t.capacity, |t.text| + |last|);
    }
  }

  /** The capacity reaches the maximum by doubling. */
  predicate DoublesTo(capacity: nat, maxCapacity: nat)
    decreases maxCapacity - capacity
  {
    capacity == maxCapacity || (0 < capacity < maxCapacity && DoublesTo(2 * capacity, maxCapacity))
  }

  lemma {:induction false} DoublesBelow(capacity: nat, maxCapacity: nat)
    requires DoublesTo(capacity, maxCapacity)
    ensures capacity <= maxCapacity
    decreases maxCapacity - capacity
  {
    if capacity != maxCapacity {
      DoublesBelow(2 * capacity, maxCapacity);
    }
  }

  /** Pieces not longer than the first capacity use the whole of the maximal one. */
  lemma {:induction false} SmallPiecesFit(maxCapacity: nat, s: Store, pieces: seq<string>)
    requires 128 <= s.capacity && |s.text| < s.capacity && DoublesTo(s.capacity, maxCapacity)
    requires forall i :: 0 <= i < |pieces| ==> |pieces[i]| <= s.capacity
    requires |s.text| + |Concat(pieces)| < maxCapacity
    ensures AllFit(maxCapacity, s, pieces)
    ensures var t := AddedAll(maxCapacity, s, pieces);
            s.capacity <= t.capacity && |t.text| < t.capacity && DoublesTo(t.capacity, maxCapacity)
  {
    if pieces != [] {
      var init, last := pieces[..|pieces| - 1], pieces[|pieces| - 1];
      SmallPiecesFit(maxCapacity, s, init);
      AddedText(maxCapacity, s, init);
      var t := AddedAll(maxCapacity, s, init);
      if |t.text| + |last| + 1 > t.capacity {
        DoublesBelow(2 * t.capacity, maxCapacity);
      }
    }
  }

  ghost predicate OccursAt(s: string, needle: string, i: int) {
    0 <= i <= |s| - |needle| && s[i..i + |needle|] == needle
  }

  lemma OneCharNeedle(s: string, needle: string, start: nat, r: int)
    requires |needle| == 1 && start <= |s| && r == IndexFrom(s, needle[0], start)
    ensures r >= 0 ==> OccursAt(s, needle, r)
    ensures forall i :: start <= i < (if r < 0 then |s| else r) ==> !OccursAt(s, needle, i)
  {
    var t := s[start..];
    forall i | start <= i < (if r < 0 then |s| else r)
      ensures !OccursAt(s, needle, i)
    {
      assert s[i] == t[i - start];
      assert r >= 0 ==> t[i - start] == t[..r - start][i - start];
      assert i <= |s| - |needle| ==> s[i..i + |needle|][0] == s[i];
    }
  }

  class StringBuf {
    const maxCapacity: nat
    var data: array<char>
    var size: nat

    ghost predicate Valid()
      reads this, data
    {
      size < data.Length && data[size] == '\0'
    }

    ghost function Contents(): (s: string)
      requires Valid()
      reads this, data
      ensures |s| == size
    {
      data[..size]
    }

    ghost function State(): (s: Store)
      requires Valid()
      reads this, data
      ensures s.text == Contents() && s.capacity == data.Length
    {
      Store(Contents(), data.Length)
    }

    constructor (capacityHint: nat, maxCapacity: nat)
      ensures this.maxCapacity == maxCapacity
      ensures Valid() && Contents() == "" && fresh(data)
      ensures data.Length == if capacityHint == 0 || capacityHint > 0x100_0000 then STRINGBUF_DEFAULT_CAP else capacityHint
    {
      var cap := if capacityHint == 0 || capacityHint > 0x100_0000 then STRINGBUF_DEFAULT_CAP else capacityHint;
      this.maxCapacity := maxCapacity;
      data := new char[cap](_ => '\0');
      size := 0;
    }

    /** Makes room for `need` bytes, moving the contents to a larger block if necessary. */
    method Reserve(need: int) returns (ok: bool)
      requires Valid()
      modifies `data
      ensures Valid() && Contents() == old(Contents())
      ensures ok <==> need >= 0 && CanReserve(maxCapacity, old(data.Length), need)
      ensures ok ==> need < data.Length
      ensures data.Length == if need < 0 then old(data.Length) else CapacityAfter(maxCapacity, old(data.Length), need)
      ensures data == old(data) || fresh(data)
    {
      if need < 0 {
        return false;
      }
      if need + 1 <= data.Length {
        return true;
      }
      var newcap := 2 * data.Length;
      if newcap < need + 1 {
        newcap := need + 1;
      }
      if newcap < 128 {
        newcap := 128;
      }
      if newcap > maxCapacity {
        return false;
      }
      var grown := new char[newcap](i requires 0 <= i < newcap reads this, data => if i < data.Length then data[i] else '\0');
      assert grown[..size] == data[..size];
      data := grown;
      return true;
    }

    method Append(src: string) returns (ok: bool)
      requires Valid()
      modifies this, data
      ensures Valid() && (data == old(data) || fresh(data))
      ensures ok <==> src != "" && CanReserve(maxCapacity, old(data.Length), old(size) + |src|)
      ensures Contents() == if ok then old(Contents()) + src else old(Contents())
      ensures data.Length == if src == "" then old(data.Length) else CapacityAfter(maxCapacity, old(data.Length), old(size) + |src|)
    {
      if |src| <= 0 {
        return false;
      }
      var room := Reserve(size + |src|);
      if !room {
        return false;
      }
      ghost var before := data[..size];
      forall i | 0 <= i < |src| {
        data[size + i] := src[i];
      }
      assert data[..size + |src|] == before + src;
      size := size + |src|;
      data[size] := '\0';
      return true;
    }

    /** A copy of the bytes start .. end. */
    method Copy(start: nat, end: nat) returns (s: string)
      requires Valid() && start <= end <= size
      ensures s == Contents()[start..end]
    {
      s := data[start..end];
    }

    /** The byte at position i. */
    function At(i: nat): (c: char)
      requires Valid() && i < size
      reads this, data
      ensures c == Contents()[i]
    {
      data[i]
    }

    /** Drops the first n bytes and moves the rest to the front. */
    method Consume(n: nat)
      requires Valid()
      modifies this, data
      ensures Valid() && data == old(data)
      ensures Contents() == old(Contents())[if n > old(size) then old(size) else n..]
    {
      if n == 0 {
        return;
      }
      var k := if n > size then size else n;
      ghost var before := data[..size];
      forall i | 0 <= i < size - k {
        data[i] := data[i + k];
      }
      size := size - k;
      data[size] := '\0';
      assert data[..size] == before[k..];
    }

    /** First occurrence of c at or after start, or -1. */
    method MemChr(c: char, start: nat) returns (r: int)
      requires Valid()
      ensures r == IndexFrom(Contents(), c, start)
    {
      if start > size {
        return -1;
      }
      r := start;
      while r < size
        invariant start <= r <= size
        invariant c !in data[start..r]
      {
        if data[r] == c {
          assert Contents()[start..r] == data[start..r];
          IndexFromIs(Contents(), c, start, r);
          return;
        }
        r := r + 1;
      }
      assert Contents()[start..size] == data[start..size];
      IndexFromIs(Contents(), c, start, -1);
      return -1;
    }

    /** First occurrence of a needle at or after start, or -1. */
    method Find(start: nat, needle: string) returns (r: int)
      requires Valid()
      ensures r == -1 || (start <= r && OccursAt(Contents(), needle, r))
      ensures needle != "" ==> forall i :: start <= i < (if r < 0 then size else r) ==> !OccursAt(Contents(), needle, i)
      ensures needle == "" ==> r == -1
      ensures |needle| == 1 ==> r == IndexFrom(Contents(), needle[0], start)
    {
      if start > size || needle == "" || |needle| > size - start {
        return -1;
      }
      if |needle| == 1 {
        r := MemChr(needle[0], start);
        OneCharNeedle(Contents(), needle, start, r);
        return;
      }
      r := start;
      while r <= size - |needle|
        invariant start <= r <= size - |needle| + 1
        invariant forall i :: start <= i < r ==> !OccursAt(Contents(), needle, i)
      {
        assert Contents()[r..r + |needle|] == data[r..r + |needle|];
        assert data[r..r + |needle|][0] == data[r];
        if data[r] == needle[0] && data[r..r + |needle|] == needle {
          return;
        }
        r := r + 1;
      }
      return -1;
    }
  }

  /** Below half the maximal capacity every append of a non-empty piece succeeds. */
  lemma SmallAppendsFit(maxCapacity: nat, capacity: nat, need: nat)
    requires need < maxCapacity / 2 && maxCapacity >= 128
    ensures CanReserve(maxCapacity, capacity, need)
  {
  }

  /** An append whose result is not looked at. */
  method Emit(sb: StringBuf, text: string)
    requires sb.Valid()
    modifies sb, sb.data
    ensures sb.Valid() && (sb.data == old(sb.data) || fresh(sb.data))
    ensures sb.State() == Added(sb.maxCapacity, old(sb.State()), text)
  {
    hide CanReserve;
    var _ := sb.Append(text);
  }
}
