/** How the automaton goes over a number. */
module CejsonNumber {
  import opened Text
  import opened Numerals
  import opened CejsonSpec
  import opened CejsonText
  import opened CejsonGrammar
  import opened CejsonScan

  /** One more byte of a number. */
  ghost function Extend(p: NumParts, c: char): Option<NumParts> {
    if DigitByte(c) then
      Some(if p.mark != "" then p.(power := p.power + [c]) else if p.point != "" then p.(fraction := p.fraction + [c]) else p.(whole := p.whole + [c]))
    else if c == '.' && p.point == "" && p.mark == "" then Some(p.(point := "."))
    else if (c == 'e' || c == 'E') && p.mark == "" && (p.whole != "" || p.fraction != "") then Some(p.(mark := [c]))
    else if (c == '+' || c == '-') && p.mark != "" && p.powerSign == "" && p.power == "" then Some(p.(powerSign := [c]))
    else None
  }

  /** What the flags say about the parts; those for digits behind a point or a mark may be left from an earlier number. */
  ghost predicate FlagsAre(f: NumberFlags, p: NumParts) {
    && (f.hasDot <==> p.point != "") && (f.hasExp <==> p.mark != "") && (f.negative <==> p.sign != "")
    && (f.hasDigit <==> p.whole != "" || p.fraction != "" || p.power != "")
    && (p.point != "" && (p.fraction != "" || p.power != "") ==> f.digitAfterDot)
    && (p.mark != "" && p.power != "" ==> f.digitAfterExp)
    && (f.endsWithDot <==> p.point != "" && p.fraction == "" && p.power == "")
    && (f.endsWithE <==> p.mark != "" && p.powerSign == "" && p.power == "")
    && (f.endsWithSign <==> p.powerSign != "" && p.power == "")
  }

  lemma NumberCharIs(f: NumberFlags, p: NumParts, c: char)
    requires NumBegun(p) && FlagsAre(f, p)
    ensures NumberChar(f, c).Some? <==> Extend(p, c).Some?
    ensures NumberChar(f, c).Some? ==> FlagsAre(NumberChar(f, c).value, Extend(p, c).value)
  {
    hide IsDigit, DigitByte;
    DigitTable(c);
    SignsAreNoDigits();
  }

  lemma SignsAreNoDigits()
    ensures !IsDigit('.') && !IsDigit('e') && !IsDigit('E') && !IsDigit('+') && !IsDigit('-')
  {
  }

  lemma CompleteIs(f: NumberFlags, p: NumParts)
    requires NumBegun(p) && FlagsAre(f, p)
    ensures NumberComplete(f, |Joined(p)|) <==> NumComplete(p)
  {
  }

  lemma ExtendJoined(p: NumParts, c: char)
    requires NumBegun(p) && Extend(p, c).Some?
    ensures NumBegun(Extend(p, c).value) && Joined(Extend(p, c).value) == Joined(p) + [c]
  {
    hide DigitByte;
    var q := Extend(p, c).value;
    var a := p.sign + p.whole + p.point + p.fraction;
    if DigitByte(c) {
      if p.mark != "" {
        assert Joined(q) == a + p.mark + p.powerSign + (p.power + [c]);
      } else if p.point != "" {
        assert Joined(p) == a;
        assert Joined(q) == p.sign + p.whole + p.point + (p.fraction + [c]);
      } else {
        assert Joined(p) == p.sign + p.whole;
        assert Joined(q) == p.sign + (p.whole + [c]);
      }
    } else if c == '.' && p.point == "" && p.mark == "" {
      assert Joined(p) == p.sign + p.whole;
      assert Joined(q) == p.sign + p.whole + [c];
    } else if (c == 'e' || c == 'E') && p.mark == "" {
      assert Joined(p) == a;
      assert Joined(q) == a + [c];
    } else {
      assert Joined(p) == a + p.mark;
      assert Joined(q) == a + p.mark + [c];
    }
  }

  // ---------------------------------------------------------------------
  // The parts of a beginning

  function Clip(s: string, k: int): string { if k <= 0 then "" else if k >= |s| then s else s[..k] }

  /** The first n bytes. */
  function Take(p: NumParts, n: nat): NumParts {
    var a0 := |p.sign|;
    var a1 := a0 + |p.whole|;
    var a2 := a1 + |p.point|;
    var a3 := a2 + |p.fraction|;
    var a4 := a3 + |p.mark|;
    var a5 := a4 + |p.powerSign|;
    NumParts(Clip(p.sign, n), Clip(p.whole, n - a0), Clip(p.point, n - a1), Clip(p.fraction, n - a2), Clip(p.mark, n - a3),
             Clip(p.powerSign, n - a4), Clip(p.power, n - a5))
  }

  lemma ClipNext(s: string, k: int)
    ensures 0 <= k < |s| ==> Clip(s, k + 1) == Clip(s, k) + [s[k]]
    ensures k >= |s| ==> Clip(s, k) == s
    ensures k <= 0 ==> Clip(s, k) == ""
  {
  }

  lemma TakeAll(p: NumParts)
    ensures Take(p, |Joined(p)|) == p
  {
  }

  lemma DigitsAt(s: string, k: int)
    requires AllDigits(s) && 0 <= k < |s|
    ensures DigitByte(s[k])
  {
  }

  lemma TakeIs(p: NumParts, n: nat)
    requires |p.sign| <= n
    ensures var a0 := |p.sign|;
            var a1 := a0 + |p.whole|;
            var a2 := a1 + |p.point|;
            var a3 := a2 + |p.fraction|;
            var a4 := a3 + |p.mark|;
            var a5 := a4 + |p.powerSign|;
            && (n <= a1 ==> Take(p, n) == NumParts(p.sign, Clip(p.whole, n - a0), "", "", "", "", ""))
            && (a1 <= n <= a2 ==> Take(p, n) == NumParts(p.sign, p.whole, Clip(p.point, n - a1), "", "", "", ""))
            && (a2 <= n <= a3 ==> Take(p, n) == NumParts(p.sign, p.whole, p.point, Clip(p.fraction, n - a2), "", "", ""))
            && (a3 <= n <= a4 ==> Take(p, n) == NumParts(p.sign, p.whole, p.point, p.fraction, Clip(p.mark, n - a3), "", ""))
            && (a4 <= n <= a5 ==> Take(p, n) == NumParts(p.sign, p.whole, p.point, p.fraction, p.mark, Clip(p.powerSign, n - a4), ""))
            && (a5 <= n ==> Take(p, n) == NumParts(p.sign, p.whole, p.point, p.fraction, p.mark, p.powerSign, Clip(p.power, n - a5)))
  {
  }

  lemma JoinedAt(p: NumParts, n: nat)
    requires |p.sign| <= n < |Joined(p)|
    ensures var a0 := |p.sign|;
            var a1 := a0 + |p.whole|;
            var a2 := a1 + |p.point|;
            var a3 := a2 + |p.fraction|;
            var a4 := a3 + |p.mark|;
            var a5 := a4 + |p.powerSign|;
            n - a5 < |p.power| &&
            Joined(p)[n] == if n < a1 then p.whole[n - a0] else if n < a2 then p.point[n - a1] else if n < a3 then p.fraction[n - a2]
                            else if n < a4 then p.mark[n - a3] else if n < a5 then p.powerSign[n - a4] else p.power[n - a5]
  {
  }

  /** Every beginning is extended by the next byte. */
  lemma TakeNext(p: NumParts, n: nat)
    requires NumComplete(p) && 1 <= n < |Joined(p)|
    ensures Extend(Take(p, n), Joined(p)[n]) == Some(Take(p, n + 1))
  {
    hide Clip, DigitByte, AllDigits, Take, Joined;
    var a0 := |p.sign|;
    var a1 := a0 + |p.whole|;
    var a2 := a1 + |p.point|;
    var a3 := a2 + |p.fraction|;
    var a4 := a3 + |p.mark|;
    var a5 := a4 + |p.powerSign|;
    TakeIs(p, n);
    TakeIs(p, n + 1);
    JoinedAt(p, n);
    DigitTable(Joined(p)[n]);
    SignsAreNoDigits();
    if n < a1 {
      DigitsAt(p.whole, n - a0);
      ClipNext(p.whole, n - a0);
    } else if n < a2 {
      OneByte(p.point);
    } else if n < a3 {
      DigitsAt(p.fraction, n - a2);
      ClipNext(p.fraction, n - a2);
    } else if n < a4 {
      OneByte(p.mark);
    } else if n < a5 {
      OneByte(p.powerSign);
    } else {
      DigitsAt(p.power, n - a5);
      ClipNext(p.power, n - a5);
    }
  }

  lemma OneByte(s: string)
    requires |s| == 1
    ensures Clip(s, 0) == "" && Clip(s, 1) == s == [s[0]]
  {
  }

  // ---------------------------------------------------------------------
  // The run over a number

  /** A number that began at i has been read up to j. */
  ghost predicate Numbering(s: State, t: State, text: string, p: NumParts)
    requires s.Parsing?
  {
    && t.Parsing? && t.mode == InNumber && text == Joined(p) && NumBegun(p) && FlagsAre(t.num, p)
    && t.pendingOffset == s.consumed && t.pendingLen == |text| && t.consumed == s.consumed + |text|
    && t.nodes == s.nodes && t.stack == s.stack && t.expecting == s.expecting
    && !t.inEscape && !t.inUniEscape && !t.pendingValue
  }

  function FirstPart(c: char): NumParts {
    if c == '-' then NumParts("-", "", "", "", "", "", "") else NumParts("", [c], "", "", "", "", "")
  }

  lemma NumberBegins(cfg: Config, s: State, c: char)
    requires AcceptsValue(s) && (c == '-' || IsDigit(c))
    ensures Numbering(s, Step(cfg, s, c), [c], FirstPart(c))
  {
    hide Sound, IsDigit, DigitByte;
    DigitTable(c);
    SignsAreNoDigits();
    BeginsNumber(cfg, s, c);
  }

  lemma BeginsNumber(cfg: Config, s: State, c: char)
    requires AcceptsValue(s) && (c == '-' || IsDigit(c))
    ensures Step(cfg, s, c) ==
            s.(pendingValue := false, mode := InNumber, pendingOffset := s.consumed, pendingLen := 1, consumed := s.consumed + 1,
               num := s.num.(hasDigit := IsDigit(c), negative := c == '-', hasDot := false, hasExp := false))
  {
    BeginsValue(cfg, s, c);
    hide Step, Sound;
  }

  lemma NumberGoesOn(cfg: Config, s: State, t: State, c: char, text: string, p: NumParts)
    requires s.Parsing? && Sound(t) && Numbering(s, t, text, p) && Extend(p, c).Some?
    ensures Numbering(s, Step(cfg, t, c), text + [c], Extend(p, c).value)
  {
    hide Sound, NumberChar, FlagsAre, Joined, NumBegun, Extend;
    NumberCharIs(t.num, p, c);
    ExtendJoined(p, c);
  }

  /** A complete number ends in its node. */
  lemma NumberAdded(cfg: Config, s: State, t: State, text: string, p: NumParts, kind: JsonType)
    requires Ready(s) && Sound(t) && Numbering(s, t, text, p) && NumberForm(text, p, kind) && |s.nodes| < cfg.nodesCap
    ensures After(s, Settle(cfg, t), CountChild(s.nodes + [JsonNode(kind, Inherited(s), U32(s.consumed), U32(|text|), 0, None)], s.stack), |text|)
  {
    hide Sound, NumberComplete, After, CountChild, Inherited, Joined, Quiet, AddScalar;
    CompleteIs(t.num, p);
    FlagsQuiet(t.num, p);
    ScalarAfter(cfg, s, t, JsonNode(kind, 0, U32(s.consumed), U32(|text|), 0, None));
  }

  lemma FlagsQuiet(f: NumberFlags, p: NumParts)
    requires FlagsAre(f, p) && NumComplete(p)
    ensures Quiet(f)
  {
  }

  lemma {:induction false} NumberFed(cfg: Config, b: string, i: nat, j: nat, p: NumParts)
    requires i < j <= |b| && AcceptsValue(At(cfg, b, i)) && NumComplete(p)
    requires j - i <= |Joined(p)| && b[i..j] == Joined(p)[..j - i]
    ensures Numbering(At(cfg, b, i), At(cfg, b, j), b[i..j], Take(p, j - i))
    decreases j - i
  {
    hide At, Numbering, Sound, Extend, Take, NumComplete, AcceptsValue, Step, Joined;
    OneStep(cfg, b, j - 1);
    if j == i + 1 {
      assert b[i..j] == [b[i]];
      assert Joined(p)[..1][0] == Joined(p)[0] == b[i];
      FirstIs(p);
      AcceptsParsing(At(cfg, b, i));
      NumberBegins(cfg, At(cfg, b, i), b[i]);
    } else {
      assert b[i..j] == b[i..j - 1] + [b[j - 1]];
      assert b[i..j][..j - 1 - i] == b[i..j - 1];
      assert Joined(p)[..j - i][..j - 1 - i] == Joined(p)[..j - 1 - i];
      assert b[j - 1] == b[i..j][j - 1 - i] == Joined(p)[..j - i][j - 1 - i] == Joined(p)[j - 1 - i];
      NumberFed(cfg, b, i, j - 1, p);
      TakeNext(p, j - 1 - i);
      AcceptsParsing(At(cfg, b, i));
      NumberGoesOn(cfg, At(cfg, b, i), At(cfg, b, j - 1), b[j - 1], b[i..j - 1], Take(p, j - 1 - i));
    }
  }

  lemma AcceptsParsing(s: State)
    requires AcceptsValue(s)
    ensures s.Parsing?
  {
  }

  lemma FirstIs(p: NumParts)
    requires NumComplete(p)
    ensures |Joined(p)| >= 1 && (Joined(p)[0] == '-' || IsDigit(Joined(p)[0])) && Take(p, 1) == FirstPart(Joined(p)[0])
  {
    hide DigitByte;
    if p.sign == "" {
      DigitTable(p.whole[0]);
      assert Joined(p)[0] == p.whole[0];
      SignsAreNoDigits();
    } else {
      assert Joined(p)[0] == '-';
    }
  }

  /** A number in a text that is not rejected goes on to an end, where it is complete. */
  lemma {:induction false} NumberFound(cfg: Config, b: string, i: nat, j: nat, p: NumParts) returns (k: nat, q: NumParts)
    requires i < j <= |b| && At(cfg, b, i).Parsing? && Numbering(At(cfg, b, i), At(cfg, b, j), b[i..j], p) && Survives(cfg, b)
    ensures j <= k <= |b| && Numbering(At(cfg, b, i), At(cfg, b, k), b[i..k], q) && NumComplete(q)
    ensures k < |b| ==> NumberChar(At(cfg, b, k).num, b[k]) == None
    decreases |b| - j
  {
    hide At, Sound, Extend, Step, NumberChar, NumComplete, Numbering;
    if j < |b| && Extend(p, b[j]).Some? {
      OneStep(cfg, b, j);
      NumberGoesOn(cfg, At(cfg, b, i), At(cfg, b, j), b[j], b[i..j], p);
      assert b[i..j + 1] == b[i..j] + [b[j]];
      k, q := NumberFound(cfg, b, i, j + 1, Extend(p, b[j]).value);
    } else {
      k, q := j, p;
      NumberingFlags(At(cfg, b, i), At(cfg, b, j), b[i..j], p);
      if j < |b| {
        NumberCharIs(At(cfg, b, j).num, p, b[j]);
        OneStep(cfg, b, j);
        NeverFailed(cfg, b, j + 1);
        StepEnds(cfg, At(cfg, b, j), b[j]);
      } else {
        FinishEnds(cfg, At(cfg, b, j));
      }
      CompleteIs(At(cfg, b, j).num, p);
    }
  }

  lemma NumberingFlags(s: State, t: State, text: string, p: NumParts)
    requires s.Parsing? && Numbering(s, t, text, p)
    ensures t.Parsing? && t.mode == InNumber && NumBegun(p) && FlagsAre(t.num, p) && t.pendingLen == |Joined(p)|
  {
  }

  lemma StepEnds(cfg: Config, t: State, c: char)
    requires Sound(t) && t.Parsing? && t.mode == InNumber && NumberChar(t.num, c) == None && Step(cfg, t, c).Parsing?
    ensures NumberComplete(t.num, t.pendingLen) && Settle(cfg, t).Parsing?
  {
    hide Sound, NumberComplete, AddScalar, StepStructure;
  }

  lemma FinishEnds(cfg: Config, t: State)
    requires Sound(t) && t.Parsing? && t.mode == InNumber && Finish(cfg, t).Parsing?
    ensures NumberComplete(t.num, t.pendingLen) && Settle(cfg, t).Parsing? && t.stack == []
  {
    hide Sound, NumberComplete, AddScalar;
  }
}
