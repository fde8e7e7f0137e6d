/** What the flat node array means: a preorder listing of trees.

    `FlattenItems` lists the nodes of complete trees, each container with its number of
    children and its number of descendants.  `Shaped` says of any reachable parser state
    that its array is the listing of the finished trees followed by that of the
    containers still open. */
module CejsonShape {
  import opened Text
  import opened CejsonSpec

  /** A parsed value. */
  datatype Tree = Leaf(node: JsonNode) | Branch(kind: JsonType, offset: nat, len: nat, items: Items)

  /** Items in order; an item of an object carries the node of its key. */
  datatype Items = Empty | Snoc(init: Items, key: Option<JsonNode>, value: Tree)

  function Count(items: Items): nat {
    match items
    case Empty => 0
    case Snoc(init, _, _) => Count(init) + 1
  }

  function KeyNodes(key: Option<JsonNode>): seq<JsonNode> {
    if key.Some? then [key.value] else []
  }

  /** A container is listed with its number of children and its number of descendants. */
  function Flatten(t: Tree): (r: seq<JsonNode>)
    ensures |r| > 0
  {
    match t
    case Leaf(node) => [node]
    case Branch(kind, offset, len, items) =>
      var below := FlattenItems(items);
      [JsonNode(kind, |below|, offset, len, Count(items), None)] + below
  }

  function FlattenItems(items: Items): seq<JsonNode> {
    match items
    case Empty => []
    case Snoc(init, key, value) => FlattenItems(init) + KeyNodes(key) + Flatten(value)
  }

  ghost predicate KeyFits(keyed: bool, key: Option<JsonNode>) {
    if keyed then key.Some? && key.value.kind == JSON_STRING else key.None?
  }

  /** Leaves are not containers, and exactly the items of objects have a key, which is a string. */
  ghost predicate WellFormed(t: Tree)
    decreases t
  {
    match t
    case Leaf(node) => !IsContainer(node.kind)
    case Branch(kind, _, _, items) => IsContainer(kind) && WellFormedItems(kind == JSON_OBJECT, items)
  }

  ghost predicate WellFormedItems(keyed: bool, items: Items)
    decreases items
  {
    match items
    case Empty => true
    case Snoc(init, key, value) => WellFormedItems(keyed, init) && KeyFits(keyed, key) && WellFormed(value)
  }

  /** A container that is open: its finished items, and the key waiting for its value. */
  datatype Frame = Frame(kind: JsonType, offset: nat, children: nat, items: Items, key: Option<JsonNode>)

  function FlattenFrame(f: Frame): (r: seq<JsonNode>)
    ensures |r| > 0
  {
    [JsonNode(f.kind, 0, f.offset, 0, f.children, None)] + FlattenItems(f.items) + KeyNodes(f.key)
  }

  function FlattenFrames(frames: seq<Frame>): seq<JsonNode> {
    if frames == [] then [] else FlattenFrames(frames[..|frames| - 1]) + FlattenFrame(frames[|frames| - 1])
  }

  function Listing(top: Items, frames: seq<Frame>): seq<JsonNode> {
    FlattenItems(top) + FlattenFrames(frames)
  }

  /** Every open container but the innermost waits for the container inside it. */
  ghost predicate FrameOk(f: Frame, innermost: bool) {
    && IsContainer(f.kind)
    && WellFormedItems(f.kind == JSON_OBJECT, f.items)
    && f.children == Count(f.items) + (if innermost then 0 else 1)
    && (f.key.Some? ==> f.kind == JSON_OBJECT && f.key.value.kind == JSON_STRING)
    && (!innermost && f.kind == JSON_OBJECT ==> f.key.Some?)
  }

  /** How the control state of the parser goes with the innermost open container. */
  ghost predicate ModeFits(s: State, frames: seq<Frame>)
    requires s.Parsing? && |s.expecting| == |frames|
  {
    if frames == [] then
      && s.mode != ExpectColon && !(s.mode == InString && s.isKey) && !s.pendingValue
    else
      var f := frames[|frames| - 1];
      var next := s.expecting[|frames| - 1];
      && (s.pendingValue ==> f.key.Some? && (s.mode == Normal || s.mode == ExpectColon))
      && match s.mode
         case Normal => f.key.Some? == (f.kind == JSON_OBJECT && !next) && s.pendingValue == f.key.Some?
         case AfterValue => f.key.None?
         case ExpectColon => f.key.Some? && s.pendingValue
         case InString => if s.isKey then f.kind == JSON_OBJECT && f.key.None? else f.key.Some? == (f.kind == JSON_OBJECT)
         case _ => f.key.Some? == (f.kind == JSON_OBJECT)
  }

  ghost predicate FramesOk(frames: seq<Frame>) {
    forall i :: 0 <= i < |frames| ==> FrameOk(frames[i], i == |frames| - 1)
  }

  ghost predicate StackFits(stack: seq<nat>, top: Items, frames: seq<Frame>) {
    && |stack| == |frames|
    && forall i :: 0 <= i < |frames| ==> stack[i] == |Listing(top, frames[..i])|
  }

  /** Arrays never expect a key. */
  ghost predicate ExpectingFits(expecting: seq<bool>, frames: seq<Frame>) {
    |expecting| == |frames| && forall i :: 0 <= i < |frames| && frames[i].kind == JSON_ARRAY ==> !expecting[i]
  }

  /** The state is a partial preorder encoding with the open containers on the stack. */
  ghost predicate Shaped(s: State, top: Items, frames: seq<Frame>) {
    && s.Parsing? && Sound(s)
    && s.nodes == Listing(top, frames)
    && WellFormedItems(false, top)
    && FramesOk(frames)
    && StackFits(s.stack, top, frames)
    && ExpectingFits(s.expecting, frames)
    && ModeFits(s, frames)
  }

  // ---------------------------------------------------------------------
  // Listings

  lemma ListingSplit(top: Items, frames: seq<Frame>)
    requires frames != []
    ensures var last := |frames| - 1;
            Listing(top, frames) == Listing(top, frames[..last]) + FlattenFrame(frames[last])
  {
  }

  /** Changing the innermost frame changes only the end of the listing. */
  lemma ListingReplace(top: Items, frames: seq<Frame>, f: Frame)
    requires frames != []
    ensures var last := |frames| - 1;
            && Listing(top, frames[last := f]) == Listing(top, frames[..last]) + FlattenFrame(f)
  {
    var last := |frames| - 1;
    assert frames[last := f][..last] == frames[..last];
  }

  lemma FramesAppend(frames: seq<Frame>, f: Frame)
    ensures FlattenFrames(frames + [f]) == FlattenFrames(frames) + FlattenFrame(f)
  {
    assert (frames + [f])[..|frames|] == frames;
  }

  // ---------------------------------------------------------------------
  // What each kind of step does to the trees

  /** Replacing the innermost frame, when nothing but the end of the listing changes. */
  lemma ReplaceInnermost(s: State, top: Items, frames: seq<Frame>, t: State, f: Frame)
    requires Shaped(s, top, frames) && frames != [] && t.Parsing? && Sound(t)
    requires t.stack == s.stack
    requires t.nodes == Listing(top, frames[..|frames| - 1]) + FlattenFrame(f)
    requires FrameOk(f, true) && ExpectingFits(t.expecting, frames[|frames| - 1 := f])
    requires ModeFits(t, frames[|frames| - 1 := f])
    ensures Shaped(t, top, frames[|frames| - 1 := f])
  {
    hide FlattenFrame, FlattenItems, FlattenFrames, Sound, ModeFits, FrameOk;
    var last := |frames| - 1;
    var frames' := frames[last := f];
    ListingReplace(top, frames, f);
    forall i | 0 <= i < |frames'|
      ensures t.stack[i] == |Listing(top, frames'[..i])|
    {
      assert frames'[..i] == frames[..i];
    }
  }

  /** Only control fields change. */
  lemma SameTrees(s: State, top: Items, frames: seq<Frame>, t: State)
    requires Shaped(s, top, frames) && t.Parsing? && Sound(t)
    requires t.nodes == s.nodes && t.stack == s.stack
    requires ExpectingFits(t.expecting, frames) && ModeFits(t, frames)
    ensures Shaped(t, top, frames)
  {
  }

  lemma CountChildOfInnermost(top: Items, frames: seq<Frame>, stack: seq<nat>, tail: seq<JsonNode>)
    requires frames != [] && StackFits(stack, top, frames)
    ensures stack[|stack| - 1] < |Listing(top, frames) + tail|
    ensures var last := |frames| - 1; var f := frames[last];
            CountChild(Listing(top, frames) + tail, stack) ==
            Listing(top, frames[..last]) + FlattenFrame(f.(children := f.children + 1)) + tail
  {
    hide FlattenItems, FlattenFrames;
    ListingSplit(top, frames);
    var last := |frames| - 1;
    var before, f := Listing(top, frames[..last]), frames[last];
    var all := before + FlattenFrame(f) + tail;
    assert all[|before|] == FlattenFrame(f)[0];
    assert FlattenFrame(f.(children := f.children + 1)) ==
           FlattenFrame(f)[0 := FlattenFrame(f)[0].(children := f.children + 1)];
  }

  /** A finished value joins an open container, taking the waiting key with it. */
  function FrameWith(f: Frame, value: Tree): Frame {
    f.(children := f.children + 1, items := Snoc(f.items, f.key, value), key := None)
  }

  lemma FrameTakesValue(f: Frame, value: Tree)
    ensures FlattenFrame(FrameWith(f, value)) == FlattenFrame(f.(children := f.children + 1)) + Flatten(value)
  {
    var head := [JsonNode(f.kind, 0, f.offset, 0, f.children + 1, None)];
    var a, b, c := FlattenItems(f.items), KeyNodes(f.key), Flatten(value);
    assert head + (a + b + c) + [] == (head + a + b) + c;
  }

  function AddItem(top: Items, frames: seq<Frame>, value: Tree): (r: (Items, seq<Frame>)) {
    if frames == [] then (Snoc(top, None, value), frames)
    else (top, frames[|frames| - 1 := FrameWith(frames[|frames| - 1], value)])
  }

  lemma ListingNoFrames(top: Items)
    ensures Listing(top, []) == FlattenItems(top)
  {
  }

  /** The innermost container waits for a value: an object with a key, an array without. */
  ghost predicate WantsValue(frames: seq<Frame>) {
    frames != [] ==> var f := frames[|frames| - 1]; f.key.Some? == (f.kind == JSON_OBJECT)
  }

  lemma FrameWithOk(f: Frame, value: Tree)
    requires FrameOk(f, true) && f.key.Some? == (f.kind == JSON_OBJECT) && WellFormed(value)
    ensures FrameOk(FrameWith(f, value), true)
  {
    assert WellFormedItems(f.kind == JSON_OBJECT, Snoc(f.items, f.key, value));
  }

  lemma LeafOk(node: JsonNode)
    ensures Flatten(Leaf(node)) == [node]
    ensures !IsContainer(node.kind) ==> WellFormed(Leaf(node))
  {
  }

  lemma AddLeaf(s: State, top: Items, frames: seq<Frame>, node: JsonNode, t: State)
    requires Shaped(s, top, frames) && WantsValue(frames) && t.Parsing? && Sound(t)
    requires !IsContainer(node.kind)
    requires t.stack == s.stack && t.expecting == s.expecting && t.mode == AfterValue && !t.pendingValue
    requires t.nodes == CountChild(s.nodes + [node], s.stack)
    ensures var (top', frames') := AddItem(top, frames, Leaf(node)); Shaped(t, top', frames')
  {
    hide FlattenFrames, FlattenItems, FlattenFrame, Sound, Flatten, WellFormed;
    LeafOk(node);
    if frames == [] {
      ListingNoFrames(top);
      ListingNoFrames(Snoc(top, None, Leaf(node)));
      TopTakesValue(top, Leaf(node));
    } else {
      var f := frames[|frames| - 1];
      CountChildOfInnermost(top, frames, s.stack, [node]);
      FrameTakesValue(f, Leaf(node));
      FrameWithOk(f, Leaf(node));
      ReplaceInnermost(s, top, frames, t, FrameWith(f, Leaf(node)));
    }
  }

  lemma TopTakesValue(top: Items, value: Tree)
    ensures FlattenItems(Snoc(top, None, value)) == FlattenItems(top) + Flatten(value)
  {
  }

  /** A key string waits in the innermost container. */
  lemma AddKey(s: State, top: Items, frames: seq<Frame>, node: JsonNode, t: State)
    requires Shaped(s, top, frames) && frames != [] && t.Parsing? && Sound(t)
    requires node.kind == JSON_STRING && s.mode == InString && s.isKey
    requires t.stack == s.stack && t.expecting == s.expecting && t.mode == ExpectColon && t.pendingValue
    requires t.nodes == s.nodes + [node]
    ensures var last := |frames| - 1; Shaped(t, top, frames[last := frames[last].(key := Some(node))])
  {
    hide FlattenFrames, FlattenItems, Sound;
    var f := frames[|frames| - 1];
    ListingSplit(top, frames);
    assert FlattenFrame(f) + [node] == FlattenFrame(f.(key := Some(node)));
    ReplaceInnermost(s, top, frames, t, f.(key := Some(node)));
  }

  /** Pushing a frame on frames that all wait for a container inside them. */
  lemma PushFrame(t: State, top: Items, outer: seq<Frame>, g: Frame)
    requires t.Parsing? && Sound(t) && WellFormedItems(false, top)
    requires |t.stack| == |outer| + 1 && StackFits(t.stack[..|outer|], top, outer)
    requires t.stack[|outer|] == |Listing(top, outer)|
    requires forall i :: 0 <= i < |outer| ==> FrameOk(outer[i], false)
    requires FrameOk(g, true)
    requires t.nodes == Listing(top, outer) + FlattenFrame(g)
    requires ExpectingFits(t.expecting, outer + [g])
    requires ModeFits(t, outer + [g])
    ensures Shaped(t, top, outer + [g])
  {
    hide FlattenFrames, FlattenItems, FlattenFrame, Sound, ModeFits, FrameOk;
    FramesAppend(outer, g);
    assert Listing(top, outer + [g]) == Listing(top, outer) + FlattenFrame(g);
    forall i | 0 <= i < |outer| + 1
      ensures t.stack[i] == |Listing(top, (outer + [g])[..i])|
    {
      if i < |outer| {
        assert (outer + [g])[..i] == outer[..i];
      } else {
        assert (outer + [g])[..i] == outer;
      }
    }
  }

  function Counted(frames: seq<Frame>): seq<Frame> {
    if frames == [] then []
    else
      var last := |frames| - 1;
      frames[last := frames[last].(children := frames[last].children + 1)]
  }

  /** Counting a container that is about to open in the innermost one. */
  lemma CountInnermost(s: State, top: Items, frames: seq<Frame>)
    requires Shaped(s, top, frames) && WantsValue(frames)
    ensures CountChild(s.nodes, s.stack) == Listing(top, Counted(frames))
    ensures |Listing(top, Counted(frames))| == |s.nodes|
    ensures StackFits(s.stack, top, Counted(frames))
    ensures forall i :: 0 <= i < |frames| ==> FrameOk(Counted(frames)[i], false)
  {
    hide FlattenFrames, FlattenItems, FlattenFrame, Sound, ModeFits;
    if frames != [] {
      var last := |frames| - 1;
      CountChildOfInnermost(top, frames, s.stack, []);
      ListingReplace(top, frames, Counted(frames)[last]);
      assert s.nodes == Listing(top, frames) + [];
      forall i | 0 <= i < |frames|
        ensures s.stack[i] == |Listing(top, Counted(frames)[..i])|
      {
        assert Counted(frames)[..i] == frames[..i];
      }
    }
  }

  /** A new container becomes the innermost one. */
  lemma OpenFrame(s: State, top: Items, frames: seq<Frame>, kind: JsonType, offset: nat, t: State)
    requires Shaped(s, top, frames) && WantsValue(frames) && t.Parsing? && Sound(t)
    requires IsContainer(kind)
    requires t.stack == s.stack + [|s.nodes|] && t.expecting == s.expecting + [kind == JSON_OBJECT]
    requires t.mode == Normal && !t.pendingValue
    requires t.nodes == CountChild(s.nodes, s.stack) + [JsonNode(kind, 0, offset, 0, 0, None)]
    ensures Shaped(t, top, Counted(frames) + [Frame(kind, offset, 0, Empty, None)])
  {
    hide FlattenFrames, FlattenItems, Sound, FlattenFrame, Listing, Counted;
    CountInnermost(s, top, frames);
    NewFrameListing(kind, offset);
    assert t.stack[..|frames|] == s.stack;
    CountedLength(frames);
    PushFrame(t, top, Counted(frames), Frame(kind, offset, 0, Empty, None));
  }

  lemma CountedLength(frames: seq<Frame>)
    ensures |Counted(frames)| == |frames|
    ensures forall i :: 0 <= i < |frames| ==> Counted(frames)[i].kind == frames[i].kind
  {
  }

  lemma NewFrameListing(kind: JsonType, offset: nat)
    ensures FlattenFrame(Frame(kind, offset, 0, Empty, None)) == [JsonNode(kind, 0, offset, 0, 0, None)]
  {
  }

  /** The tree that a closing bracket completes. */
  function Closed(f: Frame, len: nat): Tree { Branch(f.kind, f.offset, len, f.items) }

  /** The innermost container closes and becomes a finished value of the one around it. */
  lemma CloseFrame(s: State, top: Items, frames: seq<Frame>, len: nat, t: State)
    requires Shaped(s, top, frames) && frames != [] && frames[|frames| - 1].key.None?
    requires |s.nodes| <= 0x1000_0000
    requires t.Parsing? && Sound(t)
    requires t.stack == s.stack[..|s.stack| - 1] && t.expecting == s.expecting[..|s.expecting| - 1]
    requires t.mode == AfterValue && !t.pendingValue
    requires var i := Top(s);
             t.nodes == s.nodes[i := s.nodes[i].(len := len, hash := U28(|s.nodes| - (i + 1)))]
    ensures var (top', frames') := JoinClosed(top, frames, len); Shaped(t, top', frames')
  {
    hide FlattenFrames, FlattenItems, Sound, FlattenFrame, FrameOk;
    var last := |frames| - 1;
    var outer, f := frames[..last], frames[last];
    ClosedListing(s, top, frames, len, t);
    if outer == [] {
      ListingNoFrames(top);
      ListingNoFrames(Snoc(top, None, Closed(f, len)));
      TopTakesValue(top, Closed(f, len));
      ClosedOk(f, len);
    } else {
      JoinOuter(s, top, frames, len, t);
    }
  }

  /** The closed container replaces the frame; its parent has counted it already. */
  function JoinClosed(top: Items, frames: seq<Frame>, len: nat): (r: (Items, seq<Frame>))
    requires frames != []
  {
    var last := |frames| - 1;
    var outer, value := frames[..last], Closed(frames[last], len);
    if outer == [] then (Snoc(top, None, value), [])
    else
      var p := outer[last - 1];
      (top, outer[last - 1 := p.(items := Snoc(p.items, p.key, value), key := None)])
  }

  lemma ClosedOk(f: Frame, len: nat)
    requires FrameOk(f, true) && f.key.None?
    ensures WellFormed(Closed(f, len))
    ensures Flatten(Closed(f, len)) == FlattenFrame(f)[0 := FlattenFrame(f)[0].(len := len, hash := |FlattenFrame(f)| - 1)]
  {
  }

  lemma ClosedListing(s: State, top: Items, frames: seq<Frame>, len: nat, t: State)
    requires Shaped(s, top, frames) && frames != [] && frames[|frames| - 1].key.None?
    requires |s.nodes| <= 0x1000_0000
    requires t.Parsing?
    requires var i := Top(s);
             t.nodes == s.nodes[i := s.nodes[i].(len := len, hash := U28(|s.nodes| - (i + 1)))]
    ensures var last := |frames| - 1;
            t.nodes == Listing(top, frames[..last]) + Flatten(Closed(frames[last], len))
  {
    hide FlattenFrames, FlattenItems, FlattenFrame, Flatten, FrameOk, ModeFits, Sound;
    var last := |frames| - 1;
    ListingSplit(top, frames);
    ClosedOk(frames[last], len);
    var before, tail := Listing(top, frames[..last]), FlattenFrame(frames[last]);
    assert Top(s) == |before|;
    assert (before + tail)[|before|] == tail[0];
    assert |before + tail| - (|before| + 1) == |tail| - 1;
  }

  lemma JoinOuter(s: State, top: Items, frames: seq<Frame>, len: nat, t: State)
    requires Shaped(s, top, frames) && |frames| > 1 && frames[|frames| - 1].key.None?
    requires t.Parsing? && Sound(t)
    requires t.stack == s.stack[..|s.stack| - 1] && t.expecting == s.expecting[..|s.expecting| - 1]
    requires t.mode == AfterValue && !t.pendingValue
    requires var last := |frames| - 1;
             t.nodes == Listing(top, frames[..last]) + Flatten(Closed(frames[last], len))
    ensures var (top', frames') := JoinClosed(top, frames, len); Shaped(t, top', frames')
  {
    hide FlattenFrames, FlattenItems, FlattenFrame, Flatten, Sound;
    var last := |frames| - 1;
    var outer, value := frames[..last], Closed(frames[last], len);
    var p := outer[last - 1];
    var q := p.(items := Snoc(p.items, p.key, value), key := None);
    ClosedOk(frames[last], len);
    ListingSplit(top, outer);
    assert p == p.(children := p.children - 1).(children := p.children - 1 + 1);
    FrameTakesValue(p.(children := p.children - 1), value);
    FrameWithOk(p.(children := p.children - 1), value);
    assert FrameWith(p.(children := p.children - 1), value) == q;
    var rest := outer[..last - 1];
    assert forall i :: 0 <= i < last ==> frames[..i] == outer[..i];
    assert forall i :: 0 <= i < last - 1 ==> rest[..i] == frames[..i];
    assert rest + [q] == outer[last - 1 := q];
    assert t.nodes == Listing(top, rest) + FlattenFrame(q);
    PushFrame(t, top, rest, q);
  }

  // ---------------------------------------------------------------------
  // Every reachable state

  lemma ModeOfValue(s: State, top: Items, frames: seq<Frame>)
    requires Shaped(s, top, frames)
    requires s.mode in {InNumber, InLiteral} || (s.mode == InString && !s.isKey)
             || (s.mode == Normal && (frames != [] ==> !s.expecting[|frames| - 1]))
    ensures WantsValue(frames)
    ensures s.mode != Normal ==> !s.pendingValue
  {
    hide Sound, Listing, FrameOk;
  }

  lemma ScalarShape(cfg: Config, s: State, top: Items, frames: seq<Frame>, node: JsonNode)
    requires Shaped(s, top, frames) && s.mode in {InNumber, InLiteral} && !IsContainer(node.kind)
    requires AddScalar(cfg, s, node).Parsing?
    ensures var (top', frames') := AddItem(top, frames, Leaf(InheritHash(s, node)));
            Shaped(AddScalar(cfg, s, node), top', frames')
  {
    hide Sound, Listing, FrameOk, ModeFits, StackFits, ExpectingFits, CountChild;
    ModeOfValue(s, top, frames);
    AddLeaf(s, top, frames, InheritHash(s, node), AddScalar(cfg, s, node));
  }

  lemma StringShape(cfg: Config, s: State, top: Items, frames: seq<Frame>) returns (top': Items, frames': seq<Frame>)
    requires Shaped(s, top, frames) && s.mode == InString && AddString(cfg, s).Parsing?
    ensures Shaped(AddString(cfg, s), top', frames')
  {
    hide Sound, Listing, FrameOk, StackFits, ExpectingFits, CountChild, AddItem;
    var t := AddString(cfg, s);
    var node := JsonNode(JSON_STRING, if s.isKey then U28(s.pendingHash) else 0, U32(s.pendingOffset), U32(s.pendingLen), 0, None);
    if s.isKey {
      AddKey(s, top, frames, node, t);
      top', frames' := top, frames[|frames| - 1 := frames[|frames| - 1].(key := Some(node))];
    } else {
      ModeOfValue(s, top, frames);
      AddLeaf(s, top, frames, node, t);
      var r := AddItem(top, frames, Leaf(node));
      top', frames' := r.0, r.1;
    }
  }

  lemma NextShape(s: State, top: Items, frames: seq<Frame>)
    requires Shaped(s, top, frames)
    ensures Shaped(Next(s), top, frames)
  {
  }

  lemma InStringShape(cfg: Config, s: State, top: Items, frames: seq<Frame>, c: char)
    returns (top': Items, frames': seq<Frame>)
    requires Shaped(s, top, frames) && s.mode == InString && StepString(cfg, s, c).Parsing?
    ensures Shaped(StepString(cfg, s, c), top', frames')
  {
    hide Listing, FrameOk, StackFits, ExpectingFits, AddString, WellFormedItems, FramesOk;
    if !s.inUniEscape && !s.inEscape && c == '"' {
      top', frames' := StringShape(cfg, s, top, frames);
      NextShape(AddString(cfg, s), top', frames');
    } else {
      top', frames' := top, frames;
      SameTrees(s, top, frames, StepString(cfg, s, c));
    }
  }

  lemma InLiteralShape(cfg: Config, s: State, top: Items, frames: seq<Frame>, c: char)
    returns (top': Items, frames': seq<Frame>)
    requires Shaped(s, top, frames) && s.mode == InLiteral && StepLiteral(cfg, s, c).Parsing?
    ensures Shaped(StepLiteral(cfg, s, c), top', frames')
  {
    hide Listing, FrameOk, StackFits, ExpectingFits, AddScalar, WellFormedItems, FramesOk, AddItem, InheritHash;
    var text := LiteralText(s.literal);
    if s.matched + 1 < |text| {
      top', frames' := top, frames;
      SameTrees(s, top, frames, StepLiteral(cfg, s, c));
    } else {
      var u := s.(literal := JSON_NULL, matched := 0);
      var node := JsonNode(s.literal, 0, U32(s.pendingOffset), |text|, 0, None);
      SameTrees(s, top, frames, u);
      ScalarShape(cfg, u, top, frames, node);
      var r := AddItem(top, frames, Leaf(InheritHash(u, node)));
      top', frames' := r.0, r.1;
      NextShape(AddScalar(cfg, u, node), top', frames');
    }
  }

  lemma EndNumberShape(cfg: Config, s: State, top: Items, frames: seq<Frame>)
    returns (top': Items, frames': seq<Frame>)
    requires Shaped(s, top, frames) && s.mode == InNumber && EndNumber(cfg, s).Parsing?
    ensures Shaped(EndNumber(cfg, s), top', frames')
  {
    hide Listing, FrameOk, StackFits, ExpectingFits, WellFormedItems, FramesOk, AddScalar, AddItem, InheritHash, NumberComplete;
    var node := JsonNode(if s.num.hasDot || s.num.hasExp then JSON_NUMBER_FLOAT else JSON_NUMBER_INT,
                         0, U32(s.pendingOffset), U32(s.pendingLen), 0, None);
    ScalarShape(cfg, s, top, frames, node);
    var r := AddItem(top, frames, Leaf(InheritHash(s, node)));
    top', frames' := r.0, r.1;
  }

  lemma ValueShape(cfg: Config, s: State, top: Items, frames: seq<Frame>, c: char)
    returns (top': Items, frames': seq<Frame>)
    requires Shaped(s, top, frames) && s.mode == Normal && (frames != [] ==> !s.expecting[|frames| - 1])
    requires StepValue(cfg, s, c).Parsing?
    ensures Shaped(StepValue(cfg, s, c), top', frames')
  {
    hide Shaped, Sound;
    if c == '{' || c == '[' {
      top', frames' := ContainerShape(cfg, s, top, frames, c);
    } else {
      top', frames' := top, frames;
      BeginShape(cfg, s, top, frames, c);
    }
  }

  lemma ContainerShape(cfg: Config, s: State, top: Items, frames: seq<Frame>, c: char)
    returns (top': Items, frames': seq<Frame>)
    requires Shaped(s, top, frames) && s.mode == Normal && (frames != [] ==> !s.expecting[|frames| - 1])
    requires (c == '{' || c == '[') && StepValue(cfg, s, c).Parsing?
    ensures Shaped(StepValue(cfg, s, c), top', frames')
  {
    hide Listing, FrameOk, StackFits, WellFormedItems, FramesOk, CountChild, Counted;
    ModeOfValue(s, top, frames);
    var kind := if c == '{' then JSON_OBJECT else JSON_ARRAY;
    var t := OpenContainer(cfg, s.(pendingValue := false), kind);
    OpenFrame(s, top, frames, kind, U32(s.consumed), t);
    top', frames' := top, Counted(frames) + [Frame(kind, U32(s.consumed), 0, Empty, None)];
    NextShape(t, top', frames');
  }

  lemma BeginShape(cfg: Config, s: State, top: Items, frames: seq<Frame>, c: char)
    requires Shaped(s, top, frames) && s.mode == Normal && (frames != [] ==> !s.expecting[|frames| - 1])
    requires c != '{' && c != '[' && StepValue(cfg, s, c).Parsing?
    ensures Shaped(StepValue(cfg, s, c), top, frames)
  {
    hide Listing, FrameOk, StackFits, WellFormedItems, FramesOk, Sound, ExpectingFits;
    ModeOfValue(s, top, frames);
    var t := StepValue(cfg, s, c);
    if c == '"' {
      SameTrees(s, top, frames, t);
    } else if c == '-' || IsDigit(c) {
      SameTrees(s, top, frames, t);
    } else {
      SameTrees(s, top, frames, t);
    }
  }

  lemma CloseShape(cfg: Config, s: State, top: Items, frames: seq<Frame>, c: char)
    returns (top': Items, frames': seq<Frame>)
    requires Shaped(s, top, frames) && s.mode in {Normal, AfterValue} && |s.nodes| <= 0x1000_0000
    requires s.stack != [] && !s.pendingValue
    ensures Shaped(CloseContainer(s), top', frames')
  {
    hide Listing, FrameOk, WellFormedItems, FramesOk, ExpectingFits;
    var i := Top(s);
    var len := (s.consumed - s.nodes[i].offset + 1) % 0x1_0000_0000;
    CloseFrame(s, top, frames, len, CloseContainer(s));
    var r := JoinClosed(top, frames, len);
    top', frames' := r.0, r.1;
  }

  /** The kind of the innermost frame is that of its node. */
  lemma TopKind(s: State, top: Items, frames: seq<Frame>)
    requires Shaped(s, top, frames) && frames != []
    ensures s.nodes[Top(s)].kind == frames[|frames| - 1].kind
  {
    hide FlattenFrames, FlattenItems;
    ListingSplit(top, frames);
    var last := |frames| - 1;
    assert (Listing(top, frames[..last]) + FlattenFrame(frames[last]))[|Listing(top, frames[..last])|] == FlattenFrame(frames[last])[0];
  }

  lemma StructureShape(cfg: Config, s: State, top: Items, frames: seq<Frame>, c: char)
    returns (top': Items, frames': seq<Frame>)
    requires Shaped(s, top, frames) && s.mode in {Normal, AfterValue} && |s.nodes| <= 0x1000_0000
    requires StepStructure(cfg, s, c).Parsing?
    ensures Shaped(StepStructure(cfg, s, c), top', frames')
  {
    hide Listing, FrameOk, StackFits, WellFormedItems, FramesOk, StepValue, CloseContainer;
    if frames != [] {
      TopKind(s, top, frames);
    }
    if IsWhite(c) {
      NextShape(s, top, frames);
      return top, frames;
    }
    if ClosesTop(s, c) {
      top', frames' := CloseShape(cfg, s, top, frames, c);
      NextShape(CloseContainer(s), top', frames');
    } else if s.mode == Normal && !(s.stack != [] && s.expecting[|s.stack| - 1]) {
      top', frames' := ValueShape(cfg, s, top, frames, c);
    } else {
      top', frames' := top, frames;
      SameTrees(s, top, frames, StepStructure(cfg, s, c));
    }
  }

  lemma StepShape(cfg: Config, s: State, top: Items, frames: seq<Frame>, c: char)
    returns (top': Items, frames': seq<Frame>)
    requires Shaped(s, top, frames) && |s.nodes| <= cfg.nodesCap <= 0x1000_0000 && Step(cfg, s, c).Parsing?
    ensures Shaped(Step(cfg, s, c), top', frames')
  {
    hide Listing, FrameOk, StackFits, WellFormedItems, FramesOk, StepString, StepLiteral, StepStructure, EndNumber, Sound, ExpectingFits;
    match s.mode {
      case ExpectColon =>
        top', frames' := top, frames;
        ColonShape(cfg, s, top, frames, c);
      case InString => top', frames' := InStringShape(cfg, s, top, frames, c);
      case InLiteral => top', frames' := InLiteralShape(cfg, s, top, frames, c);
      case InNumber =>
        if NumberChar(s.num, c).Some? {
          top', frames' := top, frames;
          NumberCharShape(cfg, s, top, frames, c);
        } else {
          top', frames' := EndNumberShape(cfg, s, top, frames);
          EndNumberGrows(cfg, s);
          top', frames' := StructureShape(cfg, EndNumber(cfg, s), top', frames', c);
        }
      case _ => top', frames' := StructureShape(cfg, s, top, frames, c);
    }
  }

  lemma EndNumberGrows(cfg: Config, s: State)
    requires Sound(s) && s.Parsing? && s.mode == InNumber
    ensures EndNumber(cfg, s).Parsing? ==> |EndNumber(cfg, s).nodes| == |s.nodes| + 1 <= cfg.nodesCap
  {
  }

  lemma ColonShape(cfg: Config, s: State, top: Items, frames: seq<Frame>, c: char)
    requires Shaped(s, top, frames) && s.mode == ExpectColon && Step(cfg, s, c).Parsing?
    ensures Shaped(Step(cfg, s, c), top, frames)
  {
    hide Listing, StackFits, WellFormedItems;
    assert FrameOk(frames[|frames| - 1], true);
    SameTrees(s, top, frames, Step(cfg, s, c));
  }

  lemma NumberCharShape(cfg: Config, s: State, top: Items, frames: seq<Frame>, c: char)
    requires Shaped(s, top, frames) && s.mode == InNumber && NumberChar(s.num, c).Some?
    ensures Shaped(Step(cfg, s, c), top, frames)
  {
    hide Listing, FrameOk, StackFits, WellFormedItems, FramesOk, ExpectingFits;
    SameTrees(s, top, frames, Step(cfg, s, c));
  }

  lemma StepBounded(cfg: Config, s: State, c: char)
    requires Sound(s) && s.Parsing? && |s.nodes| <= cfg.nodesCap
    ensures Step(cfg, s, c).Parsing? ==> |Step(cfg, s, c).nodes| <= cfg.nodesCap
  {
    hide Sound, StepStructure, InheritHash, EndNumber, NumberChar;
    match s.mode {
      case InNumber =>
        EndNumberGrows(cfg, s);
      case _ =>
    }
  }

  lemma InitialShape()
    ensures Shaped(INITIAL, Empty, [])
  {
  }

  /** Whatever was fed, and however it was cut: a state without error encodes the finished
      trees in preorder, with the open containers on the stack. */
  lemma {:induction false} FeedShape(cfg: Config, text: string) returns (top: Items, frames: seq<Frame>)
    requires cfg.nodesCap <= 0x1000_0000 && Feed(cfg, INITIAL, text).Parsing?
    ensures |Feed(cfg, INITIAL, text).nodes| <= cfg.nodesCap
    ensures Shaped(Feed(cfg, INITIAL, text), top, frames)
  {
    hide Shaped, Step;
    if text == "" {
      InitialShape();
      return Empty, [];
    }
    var init, c := text[..|text| - 1], text[|text| - 1];
    var s := Feed(cfg, INITIAL, init);
    FailureStays(cfg, s, c);
    top, frames := FeedShape(cfg, init);
    StepBounded(cfg, s, c);
    top, frames := StepShape(cfg, s, top, frames, c);
  }

  lemma FailureStays(cfg: Config, s: State, c: char)
    requires Sound(s)
    ensures s.Failed? ==> Step(cfg, s, c) == s
  {
  }

  lemma ReachableIsPartialPreorder(cfg: Config, text: string)
    requires cfg.nodesCap <= 0x1000_0000 && Feed(cfg, INITIAL, text).Parsing?
    ensures exists top, frames :: Shaped(Feed(cfg, INITIAL, text), top, frames)
  {
    var top, frames := FeedShape(cfg, text);
  }

  /** Outside of all containers the array is that of the values so far. */
  lemma ShapedOutside(s: State, top: Items, frames: seq<Frame>)
    requires Shaped(s, top, frames) && s.stack == []
    ensures WellFormedItems(false, top) && s.nodes == FlattenItems(top)
  {
    hide WellFormedItems, FlattenItems, ModeFits, ExpectingFits, FramesOk, Sound;
    ListingNoFrames(top);
  }

  lemma FinishIs(cfg: Config, s: State)
    requires Sound(s) && Finish(cfg, s).Parsing?
    ensures s.Parsing? && s.stack == [] && Finish(cfg, s) == if s.mode == InNumber then EndNumber(cfg, s) else s
    ensures Finish(cfg, s).stack == []
  {
    hide CountChild, InheritHash, NumberComplete, Sound;
  }

  /** Accepted input: the whole array is the listing of well-formed trees, so every container
      carries its exact numbers of children and descendants, and keys and values alternate
      in objects. */
  lemma AcceptedIsPreorder(cfg: Config, text: string)
    requires cfg.nodesCap <= 0x1000_0000 && Accepted(Finish(cfg, Feed(cfg, INITIAL, text)))
    ensures exists top :: WellFormedItems(false, top) && Finish(cfg, Feed(cfg, INITIAL, text)).nodes == FlattenItems(top)
  {
    hide Shaped, WellFormedItems, FlattenItems, Feed, Finish, EndNumber;
    var s := Feed(cfg, INITIAL, text);
    FinishIs(cfg, s);
    var top, frames := FeedShape(cfg, text);
    if s.mode == InNumber {
      top, frames := EndNumberShape(cfg, s, top, frames);
    }
    ShapedOutside(Finish(cfg, s), top, frames);
  }
}
