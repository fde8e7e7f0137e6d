/** Building the flat array in place, and printing it by index arithmetic. */
module CejsonBuilder {
  import opened Text
  import opened StringBuf
  import opened CejsonSpec
  import opened CejsonText
  import opened CejsonBuilt
  import opened CejsonPieces

  const JSON_STRINGBUF_MAX_CAP: nat := 0x10_0000

  // ---------------------------------------------------------------------
  // Nodes by position

  lemma {:induction false} BuiltPrefix(items: Values, keyed: bool, n: nat)
    requires n <= Count(items)
    ensures |BuiltItems(Prefix(items, n), keyed)| <= |BuiltItems(items, keyed)|
    ensures BuiltItems(Prefix(items, n), keyed) == BuiltItems(items, keyed)[..|BuiltItems(Prefix(items, n), keyed)|]
  {
    if n < Count(items) {
      BuiltPrefix(items.init, keyed, n);
    }
  }

  // ---------------------------------------------------------------------
  // Printing strings

  /** One more piece of those that are being appended. */
  method EmitNext(sb: StringBuf, piece: string, ghost s: Store, ghost done: seq<string>)
    requires sb.Valid() && sb.State() == AddedAll(sb.maxCapacity, s, done)
    modifies sb, sb.data
    ensures sb.Valid() && (sb.data == old(sb.data) || fresh(sb.data))
    ensures sb.State() == AddedAll(sb.maxCapacity, s, done + [piece])
  {
    hide Added, AddedAll;
    Emit(sb, piece);
    AddedTwo(sb.maxCapacity, s, done, [piece]);
    AddedOne(sb.maxCapacity, AddedAll(sb.maxCapacity, s, done), piece);
  }

  /** A quoted string: in one piece if nothing needs escaping, else run by run. */
  method DumpEscape(sb: StringBuf, s: string)
    requires sb.Valid()
    modifies sb, sb.data
    ensures sb.Valid() && (sb.data == old(sb.data) || fresh(sb.data))
    ensures sb.State() == AddedAll(sb.maxCapacity, old(sb.State()), QuotePieces(s))
  {
    hide NeedsEscape, Added, AddedAll, Runs;
    var i := 0;
    while i < |s|
      invariant i <= |s| && forall k :: 0 <= k < i ==> !NeedsEscape(s[k])
    {
      if NeedsEscape(s[i]) {
        break;
      }
      i := i + 1;
    }
    if i == |s| {
      Emit(sb, "\"" + s + "\"");
      AddedOne(sb.maxCapacity, old(sb.State()), "\"" + s + "\"");
    } else {
      DumpRuns(sb, s);
    }
  }

  method DumpRuns(sb: StringBuf, s: string)
    requires sb.Valid()
    modifies sb, sb.data
    ensures sb.Valid() && (sb.data == old(sb.data) || fresh(sb.data))
    ensures sb.State() == AddedAll(sb.maxCapacity, old(sb.State()), ["\""] + Runs(s, 0, 0) + ["\""])
  {
    hide NeedsEscape, EscapeChar, Added, AddedAll, StringBuf.Valid;
    ghost var start, done := sb.State(), ["\""];
    Emit(sb, "\"");
    AddedOne(sb.maxCapacity, start, "\"");
    var runStart, j := 0, 0;
    while j < |s|
      invariant 0 <= runStart <= j <= |s|
      invariant sb.Valid() && (sb.data == old(sb.data) || fresh(sb.data))
      invariant sb.State() == AddedAll(sb.maxCapacity, start, done)
      invariant done + Runs(s, runStart, j) == ["\""] + Runs(s, 0, 0)
    {
      if NeedsEscape(s[j]) {
        var run, esc := s[runStart..j], EscapeChar(s[j]);
        EmitNext(sb, run, start, done);
        EmitNext(sb, esc, start, done + [run]);
        Regrouped(done, run, esc, Runs(s, j + 1, j + 1));
        done := done + [run] + [esc];
        runStart := j + 1;
      }
      j := j + 1;
    }
    EmitNext(sb, s[runStart..], start, done);
    EmitNext(sb, "\"", start, done + [s[runStart..]]);
  }

  lemma Regrouped(done: seq<string>, x: string, y: string, rest: seq<string>)
    ensures done + ([x, y] + rest) == done + [x] + [y] + rest
  {
  }

  // ---------------------------------------------------------------------
  // The builder

  /** Number of nodes of a subtree, from its first node alone. */
  function NodeSpan(node: JsonNode): nat { if IsContainer(node.kind) then 1 + node.hash else 1 }

  lemma SpanOfBuilt(v: Value)
    ensures NodeSpan(Built(v)[0]) == if v.VArray? || v.VObject? then 1 + U28(|Built(v)| - 1) else |Built(v)|
    ensures |Built(v)| <= 0x1000_0000 ==> NodeSpan(Built(v)[0]) == |Built(v)|
  {
    hide BuiltItems;
  }

  lemma U28Sum(a: nat, b: nat, c: nat)
    ensures U28(U28(a) + c + U28(b)) == U28(a + c + b)
  {
  }

  function Items(v: Value): Values
    requires v.VArray? || v.VObject?
  {
    if v.VArray? then v.items else v.fields
  }

  class Builder {
    const nodes: array<JsonNode>
    var nodesLen: nat

    constructor (cap: nat)
      ensures fresh(nodes) && nodes.Length == cap && nodesLen == 0
    {
      nodes := new JsonNode[cap](_ => JsonNode(JSON_NULL, 0, 0, 0, 0, None));
      nodesLen := 0;
    }

    /** The nodes made so far. */
    ghost predicate Made(s: seq<JsonNode>)
      reads this, nodes
    {
      nodesLen == |s| <= nodes.Length && nodes[..|s|] == s
    }

    /** Takes the next free node; the count is raised even if there is none. */
    method Create(node: JsonNode) returns (r: Option<nat>)
      modifies this, nodes
      ensures nodesLen == old(nodesLen) + 1
      ensures r == if old(nodesLen) < nodes.Length then Some(old(nodesLen)) else None
      ensures nodes[..] == if r.Some? then old(nodes[..])[old(nodesLen) := node] else old(nodes[..])
    {
      var idx := nodesLen;
      nodesLen := nodesLen + 1;
      if idx >= nodes.Length {
        return None;
      }
      nodes[idx] := node;
      return Some(idx);
    }

    method ArrayAppend(parent: nat, element: nat) returns (ok: bool)
      requires parent < nodes.Length && element < nodes.Length
      modifies nodes
      ensures ok == (old(nodes[parent]).kind == JSON_ARRAY)
      ensures nodes[..] == if !ok then old(nodes[..]) else
                             old(nodes[..])[parent := old(nodes[parent]).(children := old(nodes[parent]).children + 1,
                                              hash := U28(old(nodes[parent]).hash + NodeSpan(old(nodes[element]))))]
    {
      if nodes[parent].kind != JSON_ARRAY {
        return false;
      }
      var span := NodeSpan(nodes[element]);
      nodes[parent] := nodes[parent].(children := nodes[parent].children + 1, hash := U28(nodes[parent].hash + span));
      return true;
    }

    method ObjectSet(parent: nat, key: nat, value: nat) returns (ok: bool)
      requires parent < nodes.Length && key < nodes.Length && value < nodes.Length
      modifies nodes
      ensures ok == (old(nodes[parent]).kind == JSON_OBJECT && old(nodes[key]).kind == JSON_STRING)
      ensures nodes[..] == if !ok then old(nodes[..]) else
                             old(nodes[..])[parent := old(nodes[parent]).(children := old(nodes[parent]).children + 1,
                                              hash := U28(old(nodes[parent]).hash + (1 + NodeSpan(old(nodes[value])))))]
    {
      if nodes[parent].kind != JSON_OBJECT || nodes[key].kind != JSON_STRING {
        return false;
      }
      var span := NodeSpan(nodes[key]) + NodeSpan(nodes[value]);
      nodes[parent] := nodes[parent].(children := nodes[parent].children + 1, hash := U28(nodes[parent].hash + span));
      return true;
    }

    /** Adds one node when there is room. */
    method Push(node: JsonNode, ghost base: seq<JsonNode>) returns (r: nat)
      requires Made(base) && |base| < nodes.Length
      modifies this, nodes
      ensures r == |base| && Made(base + [node])
    {
      var o := Create(node);
      r := o.value;
    }

    /** Builds a value, always a key before its value: the nodes added are those of `Built`. */
    method Build(v: Value, ghost base: seq<JsonNode>) returns (r: nat)
      requires Made(base) && |base| + |Built(v)| <= nodes.Length
      modifies this, nodes
      ensures r == |base| && Made(base + Built(v))
      decreases v, 0
    {
      hide BuiltItems, Made;
      match v {
        case VNull => r := Push(JsonNode(JSON_NULL, 0, 0, 0, 0, None), base);
        case VBool(b) => r := Push(JsonNode(if b then JSON_TRUE else JSON_FALSE, 0, 0, 0, 0, None), base);
        case VInt(n) => r := Push(JsonNode(JSON_NUMBER_INT, 0, 0, |PrintInt(n)|, 0, Some(PrintInt(n))), base);
        case VString(s) => r := Push(BuiltString(s), base);
        case VArray(items) =>
          r := Push(BuiltHead(JSON_ARRAY, 0, 0), base);
          BuildItems(r, items, JSON_ARRAY, base);
          Rejoin(base, BuiltHead(JSON_ARRAY, Count(items), |BuiltItems(items, false)|), BuiltItems(items, false));
        case VObject(fields) =>
          r := Push(BuiltHead(JSON_OBJECT, 0, 0), base);
          BuildItems(r, fields, JSON_OBJECT, base);
          Rejoin(base, BuiltHead(JSON_OBJECT, Count(fields), |BuiltItems(fields, true)|), BuiltItems(fields, true));
      }
    }

    method BuildItems(parent: nat, items: Values, kind: JsonType, ghost base: seq<JsonNode>)
      requires IsContainer(kind) && parent == |base| && Made(base + [BuiltHead(kind, 0, 0)])
      requires |base| + 1 + |BuiltItems(items, kind == JSON_OBJECT)| <= nodes.Length
      modifies this, nodes
      ensures var below := BuiltItems(items, kind == JSON_OBJECT);
              Made(base + [BuiltHead(kind, Count(items), |below|)] + below)
      decreases items, 1
    {
      hide Made, Built;
      if items.None_? {
        assert base + [BuiltHead(kind, 0, 0)] + [] == base + [BuiltHead(kind, 0, 0)];
        return;
      }
      ghost var before := BuiltItems(items.init, kind == JSON_OBJECT);
      BuildItems(parent, items.init, kind, base);
      ghost var mid := base + [BuiltHead(kind, Count(items.init), |before|)] + before;
      if kind == JSON_OBJECT {
        var key := Push(BuiltString(items.key), mid);
        var value := Build(items.value, mid + [BuiltString(items.key)]);
        SetField(parent, key, value, items, base);
      } else {
        var value := Build(items.value, mid);
        AppendElement(parent, value, items, base);
      }
    }

    method SetField(parent: nat, key: nat, value: nat, items: Values, ghost base: seq<JsonNode>)
      requires items.More? && parent == |base|
      requires var before := BuiltItems(items.init, true);
               && key == |base| + 1 + |before| && value == key + 1
               && Made(base + [BuiltHead(JSON_OBJECT, Count(items.init), |before|)] + before + [BuiltString(items.key)] + Built(items.value))
      modifies nodes
      ensures var below := BuiltItems(items, true);
              Made(base + [BuiltHead(JSON_OBJECT, Count(items), |below|)] + below)
    {
      hide Built, BuiltItems;
      ghost var all := ItemAdded(base, items, true);
      assert nodes[..][parent] == all[parent] && nodes[..][key] == all[key] && nodes[..][value] == all[value];
      var _ := ObjectSet(parent, key, value);
    }

    method AppendElement(parent: nat, value: nat, items: Values, ghost base: seq<JsonNode>)
      requires items.More? && parent == |base|
      requires var before := BuiltItems(items.init, false);
               && value == |base| + 1 + |before|
               && Made(base + [BuiltHead(JSON_ARRAY, Count(items.init), |before|)] + before + Built(items.value))
      modifies nodes
      ensures var below := BuiltItems(items, false);
              Made(base + [BuiltHead(JSON_ARRAY, Count(items), |below|)] + below)
    {
      hide Built, BuiltItems;
      ghost var all := ItemAdded(base, items, false);
      assert nodes[..][parent] == all[parent] && nodes[..][value] == all[value];
      var _ := ArrayAppend(parent, value);
    }

    function FirstChild(parent: nat): Option<nat>
      requires parent < nodes.Length
      reads this, nodes
    {
      if !IsContainer(nodes[parent].kind) || nodes[parent].children == 0 then None else Some(parent + 1)
    }

    function NextSibling(idx: nat): Option<nat>
      requires idx < nodes.Length
      reads this, nodes
    {
      var next := idx + NodeSpan(nodes[idx]);
      if next >= nodesLen then None else Some(next)
    }

    /** Prints the subtree at idx, in the pieces of the value built there. */
    method DumpNode(idx: nat, sb: StringBuf, ghost v: Value, ghost all: seq<JsonNode>)
      requires Made(all) && Placed(all, idx, Built(v)) && InWidths(v)
      requires sb.Valid()
      modifies sb, sb.data
      ensures sb.Valid() && (sb.data == old(sb.data) || fresh(sb.data))
      ensures sb.State() == AddedAll(sb.maxCapacity, old(sb.State()), Pieces(v))
      decreases v, 1
    {
      hide Escape, BuiltItems, ItemPieces, PrintInt, U28, StringBuf.Valid, AddedAll, Added, PrintItems, QuotePieces;
      PlacedAt(all, idx, Built(v));
      assert nodes[idx] == all[idx];
      var node := nodes[idx];
      ghost var s := sb.State();
      if node.kind == JSON_NULL {
        Emit(sb, "null");
        AddedOne(sb.maxCapacity, s, "null");
      } else if node.kind == JSON_TRUE || node.kind == JSON_FALSE {
        Emit(sb, if node.kind == JSON_TRUE then "true" else "false");
        AddedOne(sb.maxCapacity, s, if node.kind == JSON_TRUE then "true" else "false");
      } else if node.kind == JSON_NUMBER_INT {
        assert node.strval.value == node.strval.value[..node.len];
        Emit(sb, node.strval.value[..node.len]);
        AddedOne(sb.maxCapacity, s, PrintInt(v.n));
      } else if node.kind == JSON_STRING {
        EscapeLonger(v.s);
        assert node.strval.value == node.strval.value[..node.len];
        DumpEscape(sb, node.strval.value[..node.len]);
      } else {
        PlacedBelow(all, idx, v);
        if node.children == 0 {
          Emit(sb, if node.kind == JSON_OBJECT then "{}" else "[]");
          AddedOne(sb.maxCapacity, s, if node.kind == JSON_OBJECT then "{}" else "[]");
        } else {
          DumpItems(idx, sb, Items(v), node.kind, all);
        }
      }
    }

    method DumpItems(idx: nat, sb: StringBuf, ghost items: Values, kind: JsonType, ghost all: seq<JsonNode>)
      requires IsContainer(kind) && Made(all) && idx < |all| && all[idx].kind == kind && all[idx].children == Count(items) > 0
      requires Placed(all, idx + 1, BuiltItems(items, kind == JSON_OBJECT)) && ItemsInWidths(items, kind == JSON_OBJECT)
      requires sb.Valid()
      modifies sb, sb.data
      ensures sb.Valid() && (sb.data == old(sb.data) || fresh(sb.data))
      ensures sb.State() == AddedAll(sb.maxCapacity, old(sb.State()),
                                     [if kind == JSON_OBJECT then "{" else "["] + ItemPieces(items, kind == JSON_OBJECT) + [if kind == JSON_OBJECT then "}" else "]"])
      decreases items, 0
    {
      hide BuiltItems, ItemPieces, StringBuf.Valid, Placed, Prefix, NodeSpan, Dumped, ItemsInWidths, AddedAll, Added;
      var keyed := kind == JSON_OBJECT;
      var open, close := if keyed then "{" else "[", if keyed then "}" else "]";
      ghost var s := sb.State();
      assert nodes[idx] == all[idx];
      Emit(sb, open);
      AddedOne(sb.maxCapacity, s, open);
      var child := FirstChild(idx);
      var count := nodes[idx].children;
      var i := 0;
      NothingDumped(open, items, keyed);
      while i < count
        invariant i <= count
        invariant sb.Valid() && (sb.data == old(sb.data) || fresh(sb.data))
        invariant sb.State() == AddedAll(sb.maxCapacity, s, Dumped(open, items, keyed, i))
        invariant i < count ==> child == Some(idx + 1 + |BuiltItems(Prefix(items, i), keyed)|)
      {
        child := DumpItem(idx, sb, child.value, i, count, items, keyed, open, s, all);
        i := i + 1;
      }
      AllDumped(open, items, keyed);
      EmitNext(sb, close, s, Dumped(open, items, keyed, count));
    }

    /** A key and its colon; returns the position of the value. */
    method DumpKey(sb: StringBuf, child: nat, ghost key: string, ghost all: seq<JsonNode>) returns (value: nat)
      requires Made(all) && child + 1 < |all| && all[child] == BuiltString(key) && |Quote(key)| < 0x1_0000_0000
      requires sb.Valid()
      modifies sb, sb.data
      ensures sb.Valid() && (sb.data == old(sb.data) || fresh(sb.data))
      ensures sb.State() == AddedAll(sb.maxCapacity, old(sb.State()), KeyPieces(key, true))
      ensures value == child + 1
    {
      hide Escape, StringBuf.Valid, AddedAll, Added, QuotePieces;
      var node := nodes[child];
      assert node == all[child];
      EscapeLonger(key);
      assert node.strval.value == node.strval.value[..node.len];
      DumpEscape(sb, node.strval.value[..node.len]);
      EmitNext(sb, ":", old(sb.State()), QuotePieces(key));
      value := NextSibling(child).value;
    }

    /** One element, or one key and its value, and the comma if another one follows. */
    method DumpItem(idx: nat, sb: StringBuf, child: nat, i: nat, count: nat, ghost items: Values, keyed: bool,
                    ghost open: string, ghost s: Store, ghost all: seq<JsonNode>)
        returns (next: Option<nat>)
      requires Made(all) && i < Count(items) == count && ItemsInWidths(items, keyed)
      requires Placed(all, idx + 1, BuiltItems(items, keyed)) && child == idx + 1 + |BuiltItems(Prefix(items, i), keyed)|
      requires sb.Valid() && sb.State() == AddedAll(sb.maxCapacity, s, Dumped(open, items, keyed, i))
      modifies sb, sb.data
      ensures sb.Valid() && (sb.data == old(sb.data) || fresh(sb.data))
      ensures sb.State() == AddedAll(sb.maxCapacity, s, Dumped(open, items, keyed, i + 1))
      ensures i + 1 < Count(items) ==> next == Some(idx + 1 + |BuiltItems(Prefix(items, i + 1), keyed)|)
      decreases items, 0, 0
    {
      hide BuiltItems, ItemPieces, StringBuf.Valid, Placed, Prefix, Built, Pieces, Print, Escape, Quote, BuiltString, AddedAll, Added, Dumped, QuotePieces;
      ghost var item := ItemAt(items, i);
      ItemPlaced(all, idx + 1, items, keyed, i);
      ItemWidths(items, keyed, i);
      var value := child;
      ghost var done := Dumped(open, items, keyed, i);
      assert done + [] == done;
      if keyed {
        value := DumpKey(sb, child, item.key, all);
        AddedTwo(sb.maxCapacity, s, done, KeyPieces(item.key, true));
        done := done + KeyPieces(item.key, true);
      }
      DumpNode(value, sb, item.value, all);
      AddedTwo(sb.maxCapacity, s, done, Pieces(item.value));
      done := done + Pieces(item.value);
      assert done + [] == done;
      if i + 1 < count {
        EmitNext(sb, ",", s, done);
      }
      MoreDumped(open, items, keyed, i);
      SpanOfBuilt(item.value);
      assert nodes[value] == all[value];
      next := NextSibling(value);
    }
  }

  /** Spans fit in 28 bits and lengths in 32. */
  ghost predicate InWidths(v: Value) { |Built(v)| <= 0x1000_0000 && |Print(v)| < 0x1_0000_0000 }

  ghost predicate ItemsInWidths(items: Values, keyed: bool) {
    |BuiltItems(items, keyed)| <= 0x1000_0000 && |PrintItems(items, keyed)| < 0x1_0000_0000
  }

  /** The pieces after n items, with the comma that announces another one. */
  ghost function Dumped(open: string, items: Values, keyed: bool, n: nat): seq<string>
    requires n <= Count(items)
  {
    [open] + ItemPieces(Prefix(items, n), keyed) + if 0 < n < Count(items) then [","] else []
  }

  lemma NothingDumped(open: string, items: Values, keyed: bool)
    ensures Dumped(open, items, keyed, 0) == [open] && BuiltItems(Prefix(items, 0), keyed) == []
  {
  }

  lemma AllDumped(open: string, items: Values, keyed: bool)
    ensures Dumped(open, items, keyed, Count(items)) == [open] + ItemPieces(items, keyed)
  {
  }

  lemma MoreDumped(open: string, items: Values, keyed: bool, i: nat)
    requires i < Count(items)
    ensures var item := ItemAt(items, i);
            Dumped(open, items, keyed, i + 1) ==
            Dumped(open, items, keyed, i) + (if keyed then KeyPieces(item.key, true) else []) + Pieces(item.value) +
            (if i + 1 < Count(items) then [","] else [])
  {
    hide Pieces, KeyPieces, Prefix;
    var item := ItemAt(items, i);
    assert keyed || KeyPieces(item.key, keyed) == [] by { NoKeyPieces(item.key); }
    assert CommaPieces(item.init) == if 0 < i then [","] else [];
  }

  lemma NoKeyPieces(key: string)
    ensures KeyPieces(key, false) == []
  {
  }

  lemma ItemWidths(items: Values, keyed: bool, n: nat)
    requires n < Count(items) && ItemsInWidths(items, keyed)
    ensures InWidths(ItemAt(items, n).value) && (keyed ==> |Quote(ItemAt(items, n).key)| < 0x1_0000_0000)
  {
    hide Built, Print, Quote, Prefix;
    var item := ItemAt(items, n);
    LastItem(item, keyed);
    BuiltPrefix(items, keyed, n + 1);
    PrintPrefix(items, keyed, n + 1);
  }

  lemma {:induction false} PrintPrefix(items: Values, keyed: bool, n: nat)
    requires n <= Count(items)
    ensures |PrintItems(Prefix(items, n), keyed)| <= |PrintItems(items, keyed)|
  {
    hide Print, KeyText;
    if n < Count(items) {
      PrintPrefix(items.init, keyed, n);
    }
  }

  /** The nodes at this position are those of `part`. */
  ghost predicate Placed(all: seq<JsonNode>, at: nat, part: seq<JsonNode>) {
    at + |part| <= |all| && all[at..at + |part|] == part
  }

  lemma PlacedAt(all: seq<JsonNode>, at: nat, part: seq<JsonNode>)
    requires Placed(all, at, part) && part != []
    ensures at < |all| && all[at] == part[0]
  {
  }

  lemma PlacedPart(all: seq<JsonNode>, at: nat, a: seq<JsonNode>, b: seq<JsonNode>, c: seq<JsonNode>)
    requires Placed(all, at, a + b + c)
    ensures Placed(all, at, a) && Placed(all, at + |a|, b) && Placed(all, at + |a| + |b|, c)
  {
    hide Placed;
    var whole := a + b + c;
    PlacedSlice(all, at, whole, 0, |a|);
    assert a == whole[0..|a|];
    PlacedSlice(all, at, whole, |a|, |a + b|);
    assert b == whole[|a|..|a + b|];
    PlacedSlice(all, at, whole, |a + b|, |whole|);
    assert c == whole[|a + b|..|whole|];
  }

  lemma PlacedSlice(all: seq<JsonNode>, at: nat, whole: seq<JsonNode>, i: nat, j: nat)
    requires Placed(all, at, whole) && i <= j <= |whole|
    ensures Placed(all, at + i, whole[i..j])
  {
    var x, y := all[at..at + |whole|][i..j], all[at + i..at + j];
    forall k | 0 <= k < j - i
      ensures x[k] == y[k]
    {
      assert all[at..at + |whole|][i + k] == all[at + i + k];
    }
    assert |x| == |y| == j - i;
    assert x == y;
  }

  lemma PlacedBelow(all: seq<JsonNode>, idx: nat, v: Value)
    requires (v.VArray? || v.VObject?) && Placed(all, idx, Built(v))
    ensures Placed(all, idx + 1, BuiltItems(Items(v), v.VObject?))
  {
    hide BuiltItems, Placed;
    var below := BuiltItems(Items(v), v.VObject?);
    var head := Built(v)[..1];
    assert Built(v) == head + below + [];
    PlacedPart(all, idx, head, below, []);
  }

  lemma ItemPlaced(all: seq<JsonNode>, at: nat, items: Values, keyed: bool, n: nat)
    requires n < Count(items) && Placed(all, at, BuiltItems(items, keyed))
    ensures var item, before := ItemAt(items, n), BuiltItems(Prefix(items, n), keyed);
            && (keyed ==> at + |before| + 1 < |all| && all[at + |before|] == BuiltString(item.key))
            && Placed(all, at + |before| + (if keyed then 1 else 0), Built(item.value))
            && at + |before| + (if keyed then 1 else 0) < |all|
            && all[at + |before| + (if keyed then 1 else 0)] == Built(item.value)[0]
            && |BuiltItems(Prefix(items, n + 1), keyed)| == |before| + (if keyed then 1 else 0) + |Built(item.value)|
            && (n + 1 < Count(items) ==> at + |BuiltItems(Prefix(items, n + 1), keyed)| < |all|)
  {
    hide Built, Placed, BuiltItems, Prefix;
    var item := ItemAt(items, n);
    LastItem(item, keyed);
    var a, b, c := BuiltItems(item.init, keyed), BuiltKey(item.key, keyed), Built(item.value);
    BuiltPrefix(items, keyed, n + 1);
    var whole := BuiltItems(items, keyed);
    var rest := whole[|a + b + c|..];
    assert whole == (a + b + c) + rest + [];
    PlacedPart(all, at, a + b + c, rest, []);
    PlacedPart(all, at, a, b, c);
    if keyed { PlacedAt(all, at + |a|, b); }
    PlacedAt(all, at + |a| + |b|, c);
    if n + 1 < Count(items) {
      BuiltMore(items, keyed, n + 1);
      PlacedInside(all, at, whole);
    }
  }

  lemma PlacedInside(all: seq<JsonNode>, at: nat, part: seq<JsonNode>)
    requires Placed(all, at, part)
    ensures at + |part| <= |all|
  {
  }

  lemma {:induction false} BuiltMore(items: Values, keyed: bool, n: nat)
    requires n < Count(items)
    ensures |BuiltItems(Prefix(items, n), keyed)| < |BuiltItems(items, keyed)|
  {
    hide Built;
    LastItem(items, keyed);
    if n + 1 < Count(items) {
      BuiltMore(items.init, keyed, n);
    }
  }

  lemma {:induction false} EscapeLonger(s: string)
    ensures |s| <= |Escape(s)|
  {
    hide EscapeChar;
    if s != "" {
      EscapeLonger(s[..|s| - 1]);
    }
  }

  /** What counting the last item does to the head of its container. */
  lemma ItemAdded(base: seq<JsonNode>, items: Values, keyed: bool) returns (all: seq<JsonNode>)
    requires items.More?
    ensures var before, kind := BuiltItems(items.init, keyed), if keyed then JSON_OBJECT else JSON_ARRAY;
            var below := BuiltItems(items, keyed);
            var head := BuiltHead(kind, Count(items.init), |before|);
            var value := |base| + 1 + |before| + if keyed then 1 else 0;
            && all == base + [head] + before + BuiltKey(items.key, keyed) + Built(items.value)
            && (!keyed ==> all == base + [head] + before + Built(items.value))
            && all[|base|] == head
            && (keyed ==> all[|base| + 1 + |before|] == BuiltString(items.key))
            && all[|base| := head.(children := head.children + 1,
                                   hash := U28(head.hash + if keyed then 1 + NodeSpan(all[value]) else NodeSpan(all[value])))] ==
               base + [BuiltHead(kind, Count(items), |below|)] + below
  {
    hide Built, BuiltItems;
    var before, kind := BuiltItems(items.init, keyed), if keyed then JSON_OBJECT else JSON_ARRAY;
    var head := BuiltHead(kind, Count(items.init), |before|);
    all := base + [head] + before + BuiltKey(items.key, keyed) + Built(items.value);
    LastItem(items, keyed);
    Regroup(base, head, before, BuiltKey(items.key, keyed), Built(items.value));
    HeadCounts(kind, Count(items.init), |before|, items.value, if keyed then 1 else 0);
  }

  lemma HeadCounts(kind: JsonType, children: nat, before: nat, v: Value, key: nat)
    ensures var head := BuiltHead(kind, children, before);
            head.(children := head.children + 1, hash := U28(head.hash + (key + NodeSpan(Built(v)[0])))) ==
            BuiltHead(kind, children + 1, before + key + |Built(v)|)
  {
    hide Built, NodeSpan, U28;
    SpanOfBuilt(v);
    U28Sum(before, |Built(v)| - 1, key + 1);
    if !v.VArray? && !v.VObject? {
      U28Sum(before, 0, key + |Built(v)|);
      U28Small();
    }
  }

  lemma U28Small()
    ensures U28(0) == 0
  {
  }

  lemma Rejoin(base: seq<JsonNode>, head: JsonNode, below: seq<JsonNode>)
    ensures base + [head] + below == base + ([head] + below)
  {
  }

  lemma LastItem(items: Values, keyed: bool)
    requires items.More?
    ensures BuiltItems(items, keyed) == BuiltItems(items.init, keyed) + BuiltKey(items.key, keyed) + Built(items.value)
  {
    hide Built;
  }

  lemma Regroup(base: seq<JsonNode>, head: JsonNode, before: seq<JsonNode>, key: seq<JsonNode>, value: seq<JsonNode>)
    requires value != []
    ensures var all := base + [head] + before + key + value;
            && all[|base|] == head
            && all[|base| + 1 + |before| + |key|] == value[0]
            && (key != [] ==> all[|base| + 1 + |before|] == key[0])
            && (key == [] ==> all == base + [head] + before + value)
    ensures forall head' :: (base + [head] + before + key + value)[|base| := head'] == base + [head'] + (before + key + value)
  {
  }

  /** The buffer that a value is printed to. */
  const NEW_BUFFER: Store := Store("", 256)

  /** Builds a value in an array of `cap` nodes and prints it. The text is that of the value exactly
      when every append fits in the buffer, as it does for any text shorter than half of it. */
  method BuildAndPrint(v: Value, cap: nat) returns (text: string)
    requires |Built(v)| <= cap && InWidths(v)
    ensures text == Print(v) <==> AllFit(JSON_STRINGBUF_MAX_CAP, NEW_BUFFER, Pieces(v))
    ensures |Print(v)| < JSON_STRINGBUF_MAX_CAP / 2 ==> text == Print(v)
  {
    hide Built, Print, Pieces, AddedAll, AllFit, Concat;
    var b := new Builder(cap);
    assert b.Made([]);
    var root := b.Build(v, []);
    var sb := new StringBuf(256, JSON_STRINGBUF_MAX_CAP);
    assert [] + Built(v) == Built(v);
    b.DumpNode(root, sb, v, Built(v));
    text := sb.Copy(0, sb.size);
    PiecesText(v);
    AddedText(JSON_STRINGBUF_MAX_CAP, NEW_BUFFER, Pieces(v));
    if |Print(v)| < JSON_STRINGBUF_MAX_CAP / 2 {
      ShortTextFits(JSON_STRINGBUF_MAX_CAP, NEW_BUFFER, Pieces(v));
    }
    assert "" + Print(v) == Print(v);
  }

  lemma BufferDoubles()
    ensures DoublesTo(256, JSON_STRINGBUF_MAX_CAP)
  {
    assert DoublesTo(0x8_0000, JSON_STRINGBUF_MAX_CAP);
    assert DoublesTo(0x1_0000, JSON_STRINGBUF_MAX_CAP);
    assert DoublesTo(0x2000, JSON_STRINGBUF_MAX_CAP);
    assert DoublesTo(0x400, JSON_STRINGBUF_MAX_CAP);
  }

  /** Up to the last byte of the buffer the text is complete if no piece is longer than 256 bytes. */
  lemma SmallPiecesPrint(v: Value)
    requires |Print(v)| < JSON_STRINGBUF_MAX_CAP && forall i :: 0 <= i < |Pieces(v)| ==> |Pieces(v)[i]| <= 256
    ensures AllFit(JSON_STRINGBUF_MAX_CAP, NEW_BUFFER, Pieces(v))
  {
    hide Print, Pieces;
    PiecesText(v);
    BufferDoubles();
    SmallPiecesFit(JSON_STRINGBUF_MAX_CAP, NEW_BUFFER, Pieces(v));
  }
}
