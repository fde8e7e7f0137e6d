/** Every text that the streaming JSON parser accepts is one of its language. */
module CejsonSound {
  import opened Text
  import opened CejsonSpec
  import opened CejsonText
  import opened CejsonGrammar
  import opened CejsonScan
  import opened CejsonNumber
  import opened CejsonAccepted

  function ClosingByte(fr: Frame): char
    requires fr.In?
  {
    if fr.kind == JSON_OBJECT then '}' else ']'
  }

  /** The closing bracket of the innermost container. */
  ghost predicate Closes(fr: Frame, c: char) { fr.In? && c == ClosingByte(fr) }

  lemma ClosesIs(fr: Frame, t: State, count: nat, below: seq<JsonNode>, c: char)
    requires Open(fr, t, count, below)
    ensures ClosesTop(t, c) <==> Closes(fr, c)
  {
    TopIsFrame(fr, t, count, below);
  }

  lemma ValueCloses(fr: Frame, t: State, count: nat, rest: seq<JsonNode>, c: char)
    requires AtValue(fr, t, count, rest)
    ensures ClosesTop(t, c) <==> Closes(fr, c)
  {
    if fr.In? {
      assert t.nodes[|fr.base|].kind == fr.kind;
    }
  }

  // ---------------------------------------------------------------------
  // Between items

  lemma EndedGap(cfg: Config, b: string, e: nat, k: nat)
    requires Gap(b, e, k) && e <= |b| && Ended(cfg, b, e) && BetweenTokens(Settled(cfg, b, e))
    ensures k <= |b| && Ended(cfg, b, k) && BetweenTokens(Settled(cfg, b, k))
  {
    hide Settled, Sound, At;
    GapFed(cfg, b, e, k);
  }

  /** A number that ends and a state between tokens treat the byte alike. */
  lemma EndedStep(cfg: Config, b: string, k: nat)
    requires k < |b| && Ended(cfg, b, k) && BetweenTokens(Settled(cfg, b, k))
    ensures Step(cfg, At(cfg, b, k), b[k]) == StepStructure(cfg, Settled(cfg, b, k), b[k])
  {
    hide At, Sound, StepStructure, NumberChar, AddScalar, NumberComplete;
  }

  lemma AfterNeedsComma(cfg: Config, t: State, c: char)
    requires Sound(t) && t.Parsing? && t.mode == AfterValue && !BlankByte(c) && !ClosesTop(t, c) && c != ','
    ensures StepStructure(cfg, t, c).Failed?
  {
    hide Sound, ClosesTop;
  }

  /** Behind an item a comma follows, if no bracket does. */
  lemma CommaForced(cfg: Config, b: string, k: nat, fr: Frame, count: nat, below: seq<JsonNode>)
    requires k < |b| && Survives(cfg, b) && Ended(cfg, b, k) && !BlankByte(b[k]) && !Closes(fr, b[k])
    requires count > 0 && Behind(fr, Settled(cfg, b, k), count, below)
    ensures b[k] == ','
  {
    hide At, Settled, Sound, Step, StepStructure, BlankByte, Ended, Survives, Closes;
    BehindBetween(fr, Settled(cfg, b, k), count, below);
    OneStep(cfg, b, k);
    NeverFailed(cfg, b, k + 1);
    EndedStep(cfg, b, k);
    ClosesIs(fr, Settled(cfg, b, k), count, below, b[k]);
    if b[k] != ',' {
      AfterNeedsComma(cfg, Settled(cfg, b, k), b[k]);
    }
  }

  // ---------------------------------------------------------------------
  // Keys

  lemma KeyNeeded(cfg: Config, s: State, c: char)
    requires Ready(s) && s.mode == Normal && s.stack != [] && s.expecting[|s.stack| - 1] && !BlankByte(c) && !ClosesTop(s, c) && c != '"'
    ensures Step(cfg, s, c).Failed?
  {
    hide ClosesTop;
  }

  lemma ColonNeeded(cfg: Config, s: State, c: char)
    requires Sound(s) && s.Parsing? && s.mode == ExpectColon && c != ':'
    ensures Step(cfg, s, c).Failed?
  {
  }

  lemma SurvivesStack(cfg: Config, b: string)
    requires Survives(cfg, b)
    ensures At(cfg, b, |b|).Parsing? && At(cfg, b, |b|).stack == []
  {
    hide At;
  }

  lemma KeyPlain(cfg: Config, s: State)
    requires Ready(s) && s.mode == Normal && s.stack != [] && s.expecting[|s.stack| - 1]
    ensures var u := Step(cfg, s, '"'); Plain(u) && u.isKey && u.nodes == s.nodes && u.stack == s.stack
  {
    hide Step, Sound;
    SoundBegin(s);
    BeginsKey(cfg, s);
  }

  lemma KeyFound(cfg: Config, b: string, i: nat) returns (j: nat)
    requires i < |b| && Survives(cfg, b) && b[i] == '"'
    requires var s := At(cfg, b, i); Ready(s) && s.mode == Normal && s.stack != [] && s.expecting[|s.stack| - 1]
    ensures StringForm(b, i, j) && j < |b| && b[j] == ':' && |At(cfg, b, i).nodes| < cfg.nodesCap
  {
    hide At, Sound, Step, StringBytes, AddString, Survives;
    OneStep(cfg, b, i);
    KeyPlain(cfg, At(cfg, b, i));
    var q := StringFound(cfg, b, i + 1);
    StringFed(cfg, b, i + 1, q);
    var w := At(cfg, b, q);
    OneStep(cfg, b, q);
    EndString(cfg, w);
    NeverFailed(cfg, b, q + 1);
    KeyPending(cfg, w);
    j := q + 1;
    SurvivesStack(cfg, b);
    OneStep(cfg, b, j);
    NeverFailed(cfg, b, j + 1);
    if b[j] != ':' {
      ColonNeeded(cfg, At(cfg, b, j), b[j]);
    }
  }

  lemma PendingNeedsValue(cfg: Config, s: State, c: char)
    requires AcceptsValue(s) && s.pendingValue && ClosesTop(s, c) && !BlankByte(c)
    ensures Step(cfg, s, c).Failed?
  {
    hide ClosesTop, CloseContainer;
  }

  // ---------------------------------------------------------------------
  // Values and items

  /** There is room for the value. */
  ghost predicate Fits(cfg: Config, s: State, t: Tree)
    requires s.Parsing?
  {
    |s.nodes| + |Marks(t)| <= cfg.nodesCap && |s.stack| + Height(t) <= cfg.stackCap
  }

  lemma LeafFits(cfg: Config, b: string, i: nat, t: Tree)
    requires i <= |b| && AcceptsValue(At(cfg, b, i)) && Survives(cfg, b) && !IsContainer(t.kind) && Form(b, t) && |At(cfg, b, i).nodes| < cfg.nodesCap
    requires |At(cfg, b, i).stack| <= cfg.stackCap
    ensures Fits(cfg, At(cfg, b, i), t)
  {
    hide At;
    assert t.items.NoTrees? && |MarksOf(t.items, t.kind == JSON_OBJECT)| == 0;
  }

  lemma {:induction false} ValueFound(cfg: Config, b: string, i: nat) returns (t: Tree)
    requires i < |b| && Survives(cfg, b) && AcceptsValue(At(cfg, b, i)) && |At(cfg, b, i).stack| <= cfg.stackCap
    requires !BlankByte(b[i]) && !ClosesTop(At(cfg, b, i), b[i])
    ensures t.start == i && i < t.end <= |b| && Form(b, t) && Fits(cfg, At(cfg, b, i), t) && Ended(cfg, b, t.end)
    decreases |b| - i, 0
  {
    hide At, Step, Sound, Survives, BlankByte, ClosesTop, Form, Fits, Ended, IsDigit;
    OneStep(cfg, b, i);
    NeverFailed(cfg, b, i + 1);
    if !BeginsValueChar(b[i]) {
      NoValue(cfg, At(cfg, b, i), b[i]);
    }
    if b[i] == '{' || b[i] == '[' {
      t := ContainerFound(cfg, b, i);
    } else {
      if b[i] == '"' {
        t := StringValueFound(cfg, b, i);
      } else if b[i] in "tfn" {
        t := LiteralValueFound(cfg, b, i);
      } else {
        t := NumberValueFound(cfg, b, i);
      }
      LeafFits(cfg, b, i, t);
      FormWithin(b, t);
    }
  }

  lemma OpenNeedsRoom(cfg: Config, s: State, c: char)
    requires AcceptsValue(s) && (c == '{' || c == '[') && Step(cfg, s, c).Parsing?
    ensures |s.nodes| < cfg.nodesCap && |s.stack| < cfg.stackCap
  {
    hide Step, Sound, CountChild;
    BeginsValue(cfg, s, c);
  }

  lemma {:induction false} ContainerFound(cfg: Config, b: string, i: nat) returns (t: Tree)
    requires i < |b| && Survives(cfg, b) && AcceptsValue(At(cfg, b, i)) && (b[i] == '{' || b[i] == '[')
    requires At(cfg, b, i + 1).Parsing?
    ensures t.start == i && i < t.end <= |b| && Form(b, t) && Fits(cfg, At(cfg, b, i), t) && Ended(cfg, b, t.end)
    decreases |b| - i - 1, 4
  {
    hide At, Step, Sound, Survives, CountChild, Behind, Within, AcceptsValue;
    var kind := if b[i] == '{' then JSON_OBJECT else JSON_ARRAY;
    AcceptsParsing(At(cfg, b, i));
    OneStep(cfg, b, i);
    OpenNeedsRoom(cfg, At(cfg, b, i), b[i]);
    var fr := OpenFed(cfg, b, i, kind);
    NoneListed(b, i + 1, Keyed(fr));
    NoneEnded(cfg, b, i + 1, fr);
    var all, j := ItemsFound(cfg, b, i + 1, NoTrees, fr);
    t := Tree(kind, i, j + 1, all);
    MarksLength(t);
    BracketEnded(cfg, b, t);
  }

  lemma NoneListed(b: string, i: nat, keyed: bool)
    ensures Listed(b, i, NoTrees, keyed) && EndOf(i, NoTrees) == i && MarksOf(NoTrees, keyed) == [] && HeightOf(NoTrees) == 0
  {
  }

  lemma NoneEnded(cfg: Config, b: string, i: nat, fr: Frame)
    requires i <= |b| && Behind(fr, Settled(cfg, b, i), 0, [])
    ensures Ended(cfg, b, i)
  {
    hide At;
    SettledNormal(cfg, At(cfg, b, i));
  }

  /** Behind a bracket no number is being read. */
  lemma BracketEnded(cfg: Config, b: string, t: Tree)
    requires t.start < t.end <= |b| && Form(b, t) && IsContainer(t.kind) && AcceptsValue(At(cfg, b, t.start)) && Fits(cfg, At(cfg, b, t.start), t)
    ensures Ended(cfg, b, t.end)
  {
    hide At, Form, Marks, Height, Sound, CountChild, AllMarked;
    TopInRange(At(cfg, b, t.start));
    var added := ValueFed(cfg, b, t);
    AfterMode(At(cfg, b, t.start), Settled(cfg, b, t.end), CountChild(At(cfg, b, t.start).nodes + added, At(cfg, b, t.start).stack), t.end - t.start);
  }

  lemma AfterMode(s: State, t: State, nodes: seq<JsonNode>, len: nat)
    requires s.Parsing? && After(s, t, nodes, len)
    ensures t.Parsing? && t.mode == AfterValue
  {
  }

  /** There is room for the items. */
  ghost predicate Room(cfg: Config, fr: Frame, items: Trees) {
    |StackBase(fr)| + |MarksOf(items, Keyed(fr))| <= cfg.nodesCap && |StackOf(fr)| + HeightOf(items) <= cfg.stackCap
  }

  /** The key, if there is one, and the value of an item. */
  ghost predicate Entry(b: string, first: nat, keyEnd: nat, value: Tree, keyed: bool) {
    && first < value.end <= |b| && Form(b, value)
    && (keyed ==> StringForm(b, first, keyEnd) && keyEnd < |b| && b[keyEnd] == ':' && Gap(b, keyEnd + 1, value.start))
    && (!keyed ==> value.start == first)
  }

  lemma MoreRoom(cfg: Config, fr: Frame, items: Trees, first: nat, keyEnd: nat, value: Tree, u: State, rest: seq<JsonNode>)
    requires Room(cfg, fr, items) && u.Parsing? && Fits(cfg, u, value) && |u.nodes| == |StackBase(fr)| + |rest| && u.stack == StackOf(fr)
    requires |rest| == |MarksOf(items, Keyed(fr))| + if Keyed(fr) then 1 else 0
    ensures Room(cfg, fr, MoreTrees(items, first, keyEnd, value))
  {
    hide Marks, Height, StackOf, StackBase;
  }

  lemma NextExpects(fr: Frame, t: State, count: nat, below: seq<JsonNode>)
    requires Keyed(fr) && AtNext(fr, t, count, below)
    ensures Ready(t) && t.mode == Normal && t.stack != [] && |t.stack| == |t.expecting| && t.expecting[|t.stack| - 1]
  {
  }

  lemma ValueReady(fr: Frame, t: State, count: nat, rest: seq<JsonNode>)
    requires AtValue(fr, t, count, rest)
    ensures t.Parsing? && Sound(t) && BetweenTokens(t) && t.stack == StackOf(fr)
  {
  }

  lemma KeyedStack(fr: Frame)
    ensures Keyed(fr) ==> StackOf(fr) != []
  {
  }

  /** A key and the blanks behind its colon. */
  lemma KeyEntryFound(cfg: Config, b: string, first: nat, fr: Frame, count: nat, below: seq<JsonNode>) returns (keyEnd: nat, v: nat, key: JsonNode)
    requires first < |b| && Survives(cfg, b) && AtNext(fr, At(cfg, b, first), count, below) && Keyed(fr)
    requires !BlankByte(b[first]) && !Closes(fr, b[first])
    ensures StringForm(b, first, keyEnd) && keyEnd < |b| && b[keyEnd] == ':' && Gap(b, keyEnd + 1, v) && first < v < |b|
    ensures AtValue(fr, At(cfg, b, v), count, below + [key]) && !BlankByte(b[v]) && !Closes(fr, b[v])
  {
    hide At, Sound, Step, StringForm, BlankByte, Survives, Closes, AtNext, AtValue, Keyed, Gap, BetweenTokens, Marked;
    var s := At(cfg, b, first);
    NextExpects(fr, s, count, below);
    if b[first] != '"' {
      OpenNext(fr, s, count, below);
      ClosesIs(fr, s, count, below, b[first]);
      KeyNeeded(cfg, s, b[first]);
      OneStep(cfg, b, first);
      NeverFailed(cfg, b, first + 1);
    }
    keyEnd := KeyFound(cfg, b, first);
    StringLonger(b, first, keyEnd);
    key := NextKey(cfg, b, first, keyEnd, fr, count, below);
    v := GapFound(b, keyEnd + 1);
    GapWithin(b, keyEnd + 1, v);
    GapAtValue(cfg, b, keyEnd + 1, v, fr, count, below + [key]);
    ValueReady(fr, At(cfg, b, v), count, below + [key]);
    KeyedStack(fr);
    SurvivesStack(cfg, b);
    assert v < |b|;
    ValueCloses(fr, At(cfg, b, v), count, below + [key], b[v]);
    if Closes(fr, b[v]) {
      ValueAccepts(fr, At(cfg, b, v), count, below + [key]);
      PendingNeedsValue(cfg, At(cfg, b, v), b[v]);
      OneStep(cfg, b, v);
      NeverFailed(cfg, b, v + 1);
    }
  }

  lemma OpenNext(fr: Frame, t: State, count: nat, below: seq<JsonNode>)
    requires AtNext(fr, t, count, below)
    ensures Open(fr, t, count, below)
  {
  }

  lemma ValueAccepts(fr: Frame, t: State, count: nat, rest: seq<JsonNode>)
    requires AtValue(fr, t, count, rest)
    ensures AcceptsValue(t)
  {
  }

  lemma EntryFound(cfg: Config, b: string, first: nat, items: Trees, fr: Frame, below: seq<JsonNode>) returns (keyEnd: nat, value: Tree)
    requires first < |b| && Survives(cfg, b) && AtNext(fr, At(cfg, b, first), CountTrees(items), below)
    requires !BlankByte(b[first]) && !Closes(fr, b[first])
    requires Room(cfg, fr, items) && |below| == |MarksOf(items, Keyed(fr))|
    ensures Entry(b, first, keyEnd, value, Keyed(fr)) && Room(cfg, fr, MoreTrees(items, first, keyEnd, value))
    ensures Ended(cfg, b, value.end)
    decreases |b| - first, 1
  {
    hide At, Sound, Step, StringForm, BlankByte, Survives, Closes, AtNext, AtValue, Keyed, Gap, BetweenTokens, Form, Room, Fits, Ended,
      MarksOf, StackOf, StackBase, AcceptsValue, ClosesTop;
    var count, rest, v := CountTrees(items), below, first;
    keyEnd := 0;
    if Keyed(fr) {
      var key;
      keyEnd, v, key := KeyEntryFound(cfg, b, first, fr, count, below);
      rest := below + [key];
    } else {
      NextIsValue(fr, At(cfg, b, first), count, below);
    }
    var u := At(cfg, b, v);
    NodesAtValue(fr, u, count, rest);
    ValueReady(fr, u, count, rest);
    ValueCloses(fr, u, count, rest, b[v]);
    RoomStack(cfg, fr, items);
    value := ValueFound(cfg, b, v);
    MoreRoom(cfg, fr, items, first, keyEnd, value, u, rest);
  }

  lemma RoomStack(cfg: Config, fr: Frame, items: Trees)
    requires Room(cfg, fr, items)
    ensures |StackOf(fr)| <= cfg.stackCap
  {
  }

  /** Where the next item begins, or all of them end. */
  lemma NextFound(cfg: Config, b: string, i: nat, items: Trees, fr: Frame, below: seq<JsonNode>) returns (first: nat)
    requires i <= |b| && Listed(b, i, items, Keyed(fr)) && EndOf(i, items) <= |b| && Survives(cfg, b)
    requires Behind(fr, Settled(cfg, b, EndOf(i, items)), CountTrees(items), below) && Ended(cfg, b, EndOf(i, items))
    ensures EndOf(i, items) <= first <= |b|
    ensures first == |b| || Closes(fr, b[first]) ==> Within(b, i, items, Keyed(fr), first) && (first == |b| ==> fr.TopLevel?)
    ensures first < |b| && !Closes(fr, b[first]) ==>
              !BlankByte(b[first]) && Leads(b, EndOf(i, items), items, first) && AtNext(fr, At(cfg, b, first), CountTrees(items), below)
  {
    hide At, Settled, Sound, Step, BlankByte, Survives, Closes, AtNext, Behind, Keyed, Gap, Ended, Listed, Open;
    var e, count := EndOf(i, items), CountTrees(items);
    CountPositive(items);
    var k := GapFound(b, e);
    GapWithin(b, e, k);
    GapBehind(cfg, b, e, k, fr, count, below);
    BehindBetween(fr, Settled(cfg, b, e), count, below);
    EndedGap(cfg, b, e, k);
    first := k;
    if k == |b| {
      BehindStack(fr, Settled(cfg, b, k), count, below);
      EndsOutside(cfg, b, fr);
    } else if !Closes(fr, b[k]) {
      if count == 0 {
        FirstNext(cfg, b, k, fr, below);
      } else {
        CommaForced(cfg, b, k, fr, count, below);
        CommaAt(cfg, b, k, fr, count, below);
        first := GapFound(b, k + 1);
        GapWithin(b, k + 1, first);
        GapNext(cfg, b, k + 1, first, fr, count, below);
        assert Comma(b, e, first);
        if first == |b| {
          NextStack(cfg, b, first, fr, count, below);
          EndsOutside(cfg, b, fr);
        }
      }
    }
  }

  lemma BehindStack(fr: Frame, t: State, count: nat, below: seq<JsonNode>)
    requires Behind(fr, t, count, below)
    ensures t.Parsing? && t.stack == StackOf(fr)
  {
  }

  lemma NextStack(cfg: Config, b: string, i: nat, fr: Frame, count: nat, below: seq<JsonNode>)
    requires i <= |b| && AtNext(fr, At(cfg, b, i), count, below)
    ensures Settled(cfg, b, i).Parsing? && Settled(cfg, b, i).stack == StackOf(fr)
  {
    hide At;
  }

  /** All items up to the closing bracket or the end of the text. */
  lemma {:induction false} ItemsFound(cfg: Config, b: string, i: nat, items: Trees, fr: Frame) returns (all: Trees, j: nat)
    requires i <= |b| && Listed(b, i, items, Keyed(fr)) && Behind(fr, Settled(cfg, b, i), 0, []) && Survives(cfg, b)
    requires Room(cfg, fr, items) && EndOf(i, items) <= |b| && Ended(cfg, b, EndOf(i, items))
    ensures i <= j <= |b| && Within(b, i, all, Keyed(fr), j) && Room(cfg, fr, all)
    ensures if fr.In? then j < |b| && b[j] == ClosingByte(fr) else j == |b|
    decreases |b| - EndOf(i, items), 2
  {
    hide At, Settled, Sound, Step, BlankByte, Survives, AtNext, Behind, Keyed, Gap, Ended, Listed, Open, Room, Leads, Within, AllMarked, Entry;
    var below := RoomFed(cfg, b, i, items, fr);
    var first := NextFound(cfg, b, i, items, fr, below);
    ListedFrom(b, i, items, Keyed(fr));
    if first == |b| || Closes(fr, b[first]) {
      all, j := items, first;
    } else {
      var keyEnd, value := EntryFound(cfg, b, first, items, fr, below);
      EntryListed(b, i, items, first, keyEnd, value, Keyed(fr));
      all, j := ItemsFound(cfg, b, i, MoreTrees(items, first, keyEnd, value), fr);
    }
  }

  lemma RoomFed(cfg: Config, b: string, i: nat, items: Trees, fr: Frame) returns (below: seq<JsonNode>)
    requires i <= |b| && Listed(b, i, items, Keyed(fr)) && Behind(fr, Settled(cfg, b, i), 0, []) && Room(cfg, fr, items)
    ensures EndOf(i, items) <= |b| && Behind(fr, Settled(cfg, b, EndOf(i, items)), CountTrees(items), below)
    ensures |below| == |MarksOf(items, Keyed(fr))|
  {
    hide At, Settled, Behind, Listed, MarksOf, HeightOf;
    below := ItemsFed(cfg, b, i, items, fr);
    MarkedLength(below, MarksOf(items, Keyed(fr)));
  }

  lemma {:induction false} ListedFrom(b: string, i: nat, items: Trees, keyed: bool)
    requires Listed(b, i, items, keyed)
    ensures i <= EndOf(i, items)
    decreases items
  {
    hide Form, StringForm;
    if items.MoreTrees? {
      ListedFrom(b, i, items.init, keyed);
      FormWithin(b, items.value);
      if keyed {
        StringLonger(b, items.keyStart, items.keyEnd);
      }
    }
  }

  lemma EntryListed(b: string, i: nat, items: Trees, first: nat, keyEnd: nat, value: Tree, keyed: bool)
    requires Listed(b, i, items, keyed) && Leads(b, EndOf(i, items), items, first) && Entry(b, first, keyEnd, value, keyed)
    ensures Listed(b, i, MoreTrees(items, first, keyEnd, value), keyed) && EndOf(i, MoreTrees(items, first, keyEnd, value)) == value.end
    ensures first < value.end <= |b|
  {
    hide Form, StringForm, Leads, Gap;
  }

  // ---------------------------------------------------------------------
  // Texts

  lemma DocumentFound(cfg: Config, b: string) returns (items: Trees)
    requires Accepted(Finish(cfg, Feed(cfg, INITIAL, b)))
    ensures Document(b, items) && |MarksOf(items, false)| <= cfg.nodesCap && HeightOf(items) <= cfg.stackCap
  {
    hide At, Settled, Finish, Feed, Behind, Within;
    AtEnd(cfg, b);
    InitialOpen(cfg, b);
    NoneListed(b, 0, false);
    NoneEnded(cfg, b, 0, TopLevel);
    TopCaps();
    var j;
    items, j := ItemsFound(cfg, b, 0, NoTrees, TopLevel);
    if items.NoTrees? {
      OnlyBlanks(cfg, b);
    }
  }

  lemma OnlyBlanks(cfg: Config, b: string)
    requires Within(b, 0, NoTrees, false, |b|)
    ensures !Accepted(Finish(cfg, Feed(cfg, INITIAL, b)))
  {
    hide At, Gap;
    InitialOpen(cfg, b);
    GapBehind(cfg, b, 0, |b|, TopLevel, 0, []);
    BehindBetween(TopLevel, Settled(cfg, b, |b|), 0, []);
    BehindStack(TopLevel, Settled(cfg, b, |b|), 0, []);
    EndAccepted(cfg, b);
  }

  /** The parser accepts a text exactly when it is values with commas between them, has no more nodes than the array takes
      and is nested no deeper than the stack. */
  lemma AcceptedIff(cfg: Config, b: string)
    ensures Accepted(Finish(cfg, Feed(cfg, INITIAL, b))) <==>
            exists items :: Document(b, items) && |MarksOf(items, false)| <= cfg.nodesCap && HeightOf(items) <= cfg.stackCap
  {
    hide Finish, Feed, Document, AllMarked, MarksOf, HeightOf;
    forall items | Document(b, items) && |MarksOf(items, false)| <= cfg.nodesCap && HeightOf(items) <= cfg.stackCap
      ensures Accepted(Finish(cfg, Feed(cfg, INITIAL, b)))
    {
      DocumentAccepted(cfg, b, items);
    }
    if Accepted(Finish(cfg, Feed(cfg, INITIAL, b))) {
      var items := DocumentFound(cfg, b);
    }
  }
}
