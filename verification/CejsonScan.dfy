/** The automaton at each position of a text, and how it goes over blanks, strings and numbers. */
module CejsonScan {
  import opened Text
  import opened Numerals
  import opened CejsonSpec
  import opened CejsonText
  import opened CejsonGrammar

  /** The state before the byte at i. */
  ghost function At(cfg: Config, b: string, i: nat): (s: State)
    requires i <= |b|
    ensures Sound(s)
  {
    Feed(cfg, INITIAL, b[..i])
  }

  /** The same when a number that is being read ends here. */
  ghost function Settled(cfg: Config, b: string, i: nat): (s: State)
    requires i <= |b|
    ensures Sound(s)
  {
    Settle(cfg, At(cfg, b, i))
  }

  /** The text is not rejected. */
  ghost predicate Survives(cfg: Config, b: string) { Finish(cfg, At(cfg, b, |b|)).Parsing? }

  lemma Start(cfg: Config, b: string)
    ensures At(cfg, b, 0) == INITIAL
  {
    hide Step, Sound;
    assert b[..0] == "";
    FeedNothing(cfg, INITIAL);
  }

  lemma OneStep(cfg: Config, b: string, i: nat)
    requires i < |b|
    ensures At(cfg, b, i + 1) == Step(cfg, At(cfg, b, i), b[i])
  {
    hide Step, Sound;
    var t := b[..i + 1];
    assert t[..|t| - 1] == b[..i] && t[|t| - 1] == b[i];
  }

  lemma Fed(cfg: Config, b: string, i: nat, j: nat)
    requires i <= j <= |b|
    ensures At(cfg, b, j) == Feed(cfg, At(cfg, b, i), b[i..j])
  {
    hide Step;
    assert b[..j] == b[..i] + b[i..j];
    FeedSplit(cfg, INITIAL, b[..i], b[i..j]);
  }

  lemma {:induction false} StaysFailed(cfg: Config, b: string, i: nat, j: nat)
    requires i <= j <= |b| && At(cfg, b, i).Failed?
    ensures At(cfg, b, j).Failed?
    decreases j - i
  {
    hide At, Sound;
    if i < j {
      OneStep(cfg, b, i);
      StaysFailed(cfg, b, i + 1, j);
    }
  }

  lemma NeverFailed(cfg: Config, b: string, i: nat)
    requires i <= |b| && Survives(cfg, b)
    ensures At(cfg, b, i).Parsing?
  {
    hide At;
    if At(cfg, b, i).Failed? {
      StaysFailed(cfg, b, i, |b|);
    }
  }

  // ---------------------------------------------------------------------
  // Positions

  lemma AddedStays(cfg: Config, s: State, node: JsonNode)
    requires Sound(s) && s.Parsing?
    ensures var t := AddScalar(cfg, s, node); t.Parsing? ==> t.consumed == s.consumed
    ensures s.mode == InString ==> var t := AddString(cfg, s); t.Parsing? ==> t.consumed == s.consumed
  {
    hide CountChild, InheritHash, Sound;
  }

  lemma StringMovesOn(cfg: Config, s: State, c: char)
    requires Sound(s) && s.Parsing? && s.mode == InString
    ensures var t := StepString(cfg, s, c); t.Parsing? ==> t.consumed == s.consumed + 1
  {
    hide AddString, Sound, IsHexDigit;
    AddedStays(cfg, s, JsonNode(JSON_NULL, 0, 0, 0, 0, None));
  }

  lemma LiteralMovesOn(cfg: Config, s: State, c: char)
    requires Sound(s) && s.Parsing? && s.mode == InLiteral
    ensures var t := StepLiteral(cfg, s, c); t.Parsing? ==> t.consumed == s.consumed + 1
  {
    hide AddScalar, Sound;
    var u := s.(literal := JSON_NULL, matched := 0);
    SoundControl(s, u);
    AddedStays(cfg, u, JsonNode(s.literal, 0, U32(s.pendingOffset), |LiteralText(s.literal)|, 0, None));
  }

  lemma ValueMovesOn(cfg: Config, s: State, c: char)
    requires Sound(s) && s.Parsing? && s.mode == Normal
    ensures var t := StepValue(cfg, s, c); t.Parsing? ==> t.consumed == s.consumed + 1
  {
    hide CountChild, Sound, IsDigit;
  }

  lemma BracketMovesOn(s: State)
    requires Sound(s) && s.Parsing?
    ensures s.stack != [] ==> CloseContainer(s).Parsing? && CloseContainer(s).consumed == s.consumed
    ensures s.mode == AfterValue ==> AfterComma(s).consumed == s.consumed
  {
    hide Sound;
  }

  lemma StructureMovesOn(cfg: Config, s: State, c: char)
    requires Sound(s) && BetweenTokens(s)
    ensures var t := StepStructure(cfg, s, c); t.Parsing? ==> t.consumed == s.consumed + 1
  {
    hide Sound, StepValue, CloseContainer, AfterComma, IsWhite, ClosesTop;
    BracketMovesOn(s);
    if s.mode == Normal {
      ValueMovesOn(cfg, s, c);
    }
    ClosesHas(s, c);
  }

  lemma ClosesHas(s: State, c: char)
    requires Sound(s) && s.Parsing?
    ensures ClosesTop(s, c) ==> s.stack != []
  {
    hide Sound;
  }

  lemma StepMovesOn(cfg: Config, s: State, c: char)
    requires Sound(s) && s.Parsing?
    ensures var t := Step(cfg, s, c); t.Parsing? ==> t.consumed == s.consumed + 1
  {
    hide StepString, StepLiteral, StepStructure, AddScalar, NumberChar, NumberComplete, Sound;
    match s.mode {
      case InString => StringMovesOn(cfg, s, c);
      case InLiteral => LiteralMovesOn(cfg, s, c);
      case InNumber =>
        AddedStays(cfg, s, JsonNode(if s.num.hasDot || s.num.hasExp then JSON_NUMBER_FLOAT else JSON_NUMBER_INT,
                                    0, U32(s.pendingOffset), U32(s.pendingLen), 0, None));
        if EndNumber(cfg, s).Parsing? {
          StructureMovesOn(cfg, EndNumber(cfg, s), c);
        }
      case ExpectColon =>
      case _ => StructureMovesOn(cfg, s, c);
    }
  }

  lemma {:induction false} ConsumedIs(cfg: Config, b: string, i: nat)
    requires i <= |b|
    ensures At(cfg, b, i).Parsing? ==> At(cfg, b, i).consumed == i
  {
    hide At, Step, Sound;
    if i == 0 {
      Start(cfg, b);
    } else {
      OneStep(cfg, b, i - 1);
      ConsumedIs(cfg, b, i - 1);
      if At(cfg, b, i - 1).Parsing? {
        StepMovesOn(cfg, At(cfg, b, i - 1), b[i - 1]);
      } else {
        StaysFailed(cfg, b, i - 1, i);
      }
    }
  }

  // ---------------------------------------------------------------------
  // Blanks

  ghost predicate BetweenTokens(s: State) { s.Parsing? && (s.mode == Normal || s.mode == AfterValue) }

  lemma BlankStep(cfg: Config, s: State, c: char)
    requires Sound(s) && BetweenTokens(s) && BlankByte(c)
    ensures Step(cfg, s, c) == Next(s)
  {
    hide Sound;
  }

  /** Only digits, points, marks of exponents and signs are part of a number. */
  lemma EndsNumber(f: NumberFlags, c: char)
    requires BlankByte(c) || c in ",]}"
    ensures NumberChar(f, c) == None
  {
  }

  /** A number ends before such a byte. */
  lemma SettledStep(cfg: Config, s: State, c: char)
    requires Sound(s) && Settle(cfg, s).Parsing? && (BlankByte(c) || c in ",]}")
    ensures Step(cfg, s, c) == Step(cfg, Settle(cfg, s), c)
  {
    hide Sound, AddScalar, StepStructure, NumberChar, BlankByte;
    if s.Parsing? && s.mode == InNumber {
      EndsNumber(s.num, c);
    }
  }

  lemma {:induction false} GapFed(cfg: Config, b: string, i: nat, j: nat)
    requires Gap(b, i, j) && BetweenTokens(Settled(cfg, b, i))
    ensures Settled(cfg, b, j) == Settled(cfg, b, i).(consumed := Settled(cfg, b, i).consumed + (j - i))
    ensures i < j ==> At(cfg, b, j) == Settled(cfg, b, j)
    decreases j - i
  {
    hide At, Sound, Step, Settle, BlankByte;
    if i < j {
      OneStep(cfg, b, i);
      SettledStep(cfg, At(cfg, b, i), b[i]);
      BlankStep(cfg, Settled(cfg, b, i), b[i]);
      SettleNothing(cfg, At(cfg, b, i + 1));
      GapFed(cfg, b, i + 1, j);
    }
  }

  lemma SettleNothing(cfg: Config, s: State)
    requires Sound(s) && BetweenTokens(s)
    ensures Settle(cfg, s) == s
  {
  }

  // ---------------------------------------------------------------------
  // Strings

  lemma HexTable(c: char)
    ensures HexByte(c) <==> IsHexDigit(c)
  {
    hide IsHexDigit, HexDigitValue;
    DigitTables(c);
    if HexByte(c) {
      if c in LOWER_HEX {
        var d :| 0 <= d < 16 && LOWER_HEX[d] == c;
        assert DigitOf(c, 16, d);
      } else {
        var d :| 0 <= d < 16 && UPPER_HEX[d] == c;
        assert DigitOf(c, 16, d);
      }
    }
  }

  lemma ReadTwice(r: State, s: State, t: State, m: nat, n: nat)
    requires r.Parsing? && s.Parsing? && t.Parsing? && Read(r, s, m, s.pendingHash) && Read(s, t, n, t.pendingHash)
    ensures Read(r, t, m + n, t.pendingHash)
  {
    hide Sound;
  }

  lemma PlainStep(cfg: Config, s: State, c: char)
    requires Plain(s) && c != '"' && c != '\\'
    ensures var t := Step(cfg, s, c); t.Parsing? && Read(s, t, 1, t.pendingHash)
  {
  }

  /** Four hexadecimal digits behind the letter u. */
  lemma HexFed(cfg: Config, b: string, i: nat)
    requires i + 6 <= |b| && Plain(At(cfg, b, i)) && b[i] == '\\' && b[i + 1] == 'u' && forall k :: i + 2 <= k < i + 6 ==> IsHexDigit(b[k])
    ensures var s, t := At(cfg, b, i), At(cfg, b, i + 6); t.Parsing? && Read(s, t, 6, t.pendingHash)
  {
    hide At, Sound, Step, IsHexDigit;
    var s := At(cfg, b, i);
    OneStep(cfg, b, i);
    OneStep(cfg, b, i + 1);
    BeginUni(cfg, s);
    Fed(cfg, b, i + 2, i + 6);
    var hex := b[i + 2..i + 6];
    forall c | c in hex
      ensures IsHexDigit(c)
    {
      var k :| 0 <= k < 4 && hex[k] == c;
      assert b[i + 2 + k] == c;
    }
    ReadFourHex(cfg, At(cfg, b, i + 2), hex);
    ReadIsPlain(s, At(cfg, b, i + 6), 6);
  }

  lemma ReadIsPlain(s: State, t: State, n: nat)
    requires Plain(s) && t.Parsing? && Sound(t)
    requires t == s.(consumed := s.consumed + n, pendingLen := s.pendingLen + n, uniDigits := t.uniDigits)
    ensures Read(s, t, n, t.pendingHash)
  {
  }

  lemma ShortFed(cfg: Config, b: string, i: nat)
    requires i + 2 <= |b| && Plain(At(cfg, b, i)) && b[i] == '\\' && b[i + 1] in "\"\\/bfnrt"
    ensures var s, t := At(cfg, b, i), At(cfg, b, i + 2); t.Parsing? && Read(s, t, 2, t.pendingHash)
  {
    hide At, Sound, Step, Read;
    Fed(cfg, b, i, i + 2);
    assert b[i..i + 2] == ['\\', b[i + 1]];
    ReadShortEscape(cfg, At(cfg, b, i), b[i + 1]);
    ReadHash(At(cfg, b, i), At(cfg, b, i + 2), 2);
  }

  lemma ReadHash(s: State, t: State, n: nat)
    requires s.Parsing? && Read(s, t, n, s.pendingHash)
    ensures t.Parsing? && Read(s, t, n, t.pendingHash)
  {
  }

  lemma {:induction false} StringFed(cfg: Config, b: string, i: nat, j: nat)
    requires i <= j <= |b| && StringBytes(b, i, j) && Plain(At(cfg, b, i))
    ensures var s, t := At(cfg, b, i), At(cfg, b, j); t.Parsing? && Read(s, t, j - i, t.pendingHash)
    decreases j - i
  {
    hide At, Sound, Step, IsHexDigit, HexByte;
    if i < j {
      var k := StringNext(b, i, j);
      if b[i] != '\\' {
        OneStep(cfg, b, i);
        PlainStep(cfg, At(cfg, b, i), b[i]);
      } else if k == i + 2 {
        ShortFed(cfg, b, i);
      } else {
        HexFed(cfg, b, i);
      }
      StringFed(cfg, b, k, j);
      ReadTwice(At(cfg, b, i), At(cfg, b, k), At(cfg, b, j), k - i, j - k);
    }
  }

  /** The first character of the rest of a string. */
  lemma StringNext(b: string, i: nat, j: nat) returns (k: nat)
    requires i < j <= |b| && StringBytes(b, i, j)
    ensures i < k <= j && StringBytes(b, k, j) && b[i] != '"'
    ensures k == i + 1 ==> b[i] != '\\'
    ensures b[i] == '\\' ==> (k == i + 2 && b[i + 1] in "\"\\/bfnrt") || (k == i + 6 && b[i + 1] == 'u' && forall n :: i + 2 <= n < i + 6 ==> IsHexDigit(b[n]))
    ensures b[i] != '\\' ==> k == i + 1
  {
    hide IsHexDigit, HexByte;
    if b[i] != '\\' {
      k := i + 1;
    } else if b[i + 1] != 'u' {
      k := i + 2;
    } else {
      k := i + 6;
      forall n | i + 2 <= n < i + 6
        ensures IsHexDigit(b[n])
      {
        HexTable(b[n]);
      }
    }
  }

  /** A string in a text that is not rejected goes on to its closing quote. */
  lemma {:induction false} StringFound(cfg: Config, b: string, i: nat) returns (j: nat)
    requires i <= |b| && Plain(At(cfg, b, i)) && Survives(cfg, b)
    ensures i <= j < |b| && b[j] == '"' && StringBytes(b, i, j)
    decreases |b| - i
  {
    hide At, Sound, Step, IsHexDigit, HexByte;
    NotInString(cfg, b, i);
    if b[i] == '"' {
      j := i;
    } else if b[i] != '\\' {
      OneStep(cfg, b, i);
      PlainStep(cfg, At(cfg, b, i), b[i]);
      j := StringFound(cfg, b, i + 1);
    } else {
      EscapeFound(cfg, b, i);
      if b[i + 1] != 'u' {
        ShortFed(cfg, b, i);
        j := StringFound(cfg, b, i + 2);
      } else {
        HexFed(cfg, b, i);
        j := StringFound(cfg, b, i + 6);
        forall n | i + 2 <= n < i + 6
          ensures HexByte(b[n])
        {
          HexTable(b[n]);
        }
      }
    }
  }

  lemma NotInString(cfg: Config, b: string, i: nat)
    requires i <= |b| && Survives(cfg, b) && At(cfg, b, i).Parsing? && At(cfg, b, i).mode in {InString, InLiteral}
    ensures i < |b|
  {
    hide At;
  }

  lemma EscapeFound(cfg: Config, b: string, i: nat)
    requires i < |b| && Plain(At(cfg, b, i)) && Survives(cfg, b) && b[i] == '\\'
    ensures i + 1 < |b|
    ensures b[i + 1] in "\"\\/bfnrt" || (b[i + 1] == 'u' && i + 6 <= |b| && forall k :: i + 2 <= k < i + 6 ==> IsHexDigit(b[k]))
  {
    hide At, Sound, Step, IsHexDigit;
    var s := At(cfg, b, i);
    OneStep(cfg, b, i);
    EscapeStep(cfg, s);
    NotInString(cfg, b, i + 1);
    OneStep(cfg, b, i + 1);
    NeverFailed(cfg, b, i + 2);
    AfterEscape(cfg, At(cfg, b, i + 1), b[i + 1]);
    if b[i + 1] == 'u' {
      HexStep(cfg, b, i + 2);
      HexStep(cfg, b, i + 3);
      HexStep(cfg, b, i + 4);
      HexStep(cfg, b, i + 5);
    }
  }

  lemma EscapeStep(cfg: Config, s: State)
    requires Plain(s)
    ensures var t := Step(cfg, s, '\\'); t.Parsing? && t.mode == InString && t.inEscape && !t.inUniEscape
  {
  }

  lemma AfterEscape(cfg: Config, s: State, c: char)
    requires Sound(s) && s.Parsing? && s.mode == InString && s.inEscape && !s.inUniEscape
    ensures var t := Step(cfg, s, c);
            && (t.Parsing? <==> c in "\"\\/bfnrt" || c == 'u')
            && (c == 'u' ==> t.Parsing? && t.mode == InString && !t.inEscape && t.inUniEscape && t.uniDigits == 0)
  {
  }

  /** One more digit of a code. */
  lemma HexStep(cfg: Config, b: string, i: nat)
    requires i <= |b| && Survives(cfg, b)
    requires var s := At(cfg, b, i); s.Parsing? && s.mode == InString && !s.inEscape && s.inUniEscape
    ensures i < |b| && IsHexDigit(b[i])
    ensures var s, t := At(cfg, b, i), At(cfg, b, i + 1);
            t.Parsing? && t.mode == InString && !t.inEscape && t.uniDigits == s.uniDigits + 1 && t.inUniEscape == (t.uniDigits != 4)
  {
    hide At, Sound, IsHexDigit;
    NotInString(cfg, b, i);
    OneStep(cfg, b, i);
    NeverFailed(cfg, b, i + 1);
  }
}
