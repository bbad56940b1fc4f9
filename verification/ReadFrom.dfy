/** JSValue::ReadFrom over either reader: it terminates on every input, and over a tree it returns the tree. */
module ReadFroms {
  import opened JSValues
  import opened JsonTokens
  import opened Cursors

  predicate Valid(c: Cursor) {
    match c
    case Tree(t) => TreeInv(t)
    case Json(_, j) => Ready(j.parser)
  }

  /** The cursor has just been moved to its value: a container is not entered yet. */
  predicate Fresh(t: TreeCursor) {
    t.current.IsContainer() ==> !t.inContainer
  }

  // ---------- why the loops end ----------

  function Size(v: JSValue): nat
    ensures Size(v) >= 1
    decreases v, 1
  {
    match v
    case Array(items) => 1 + ItemsSize(items)
    case Object(ps) => 1 + PropsSize(ps)
    case _ => 1
  }

  function ItemsSize(items: seq<JSValue>): nat
    decreases items, 0
  {
    if items == [] then 0 else Size(items[0]) + ItemsSize(items[1..])
  }

  function PropsSize(ps: seq<Property>): nat
    decreases ps, 0
  {
    if ps == [] then 0 else Size(ps[0].value) + PropsSize(ps[1..])
  }

  /** The nodes an iterator has still to visit. */
  function Later(e: Entry): nat {
    match e.value
    case Array(items) => if e.index < |items| then ItemsSize(items[e.index + 1..]) else 0
    case Object(ps) => if e.index < |ps| then PropsSize(ps[e.index + 1..]) else 0
    case _ => 0
  }

  function StackLater(stack: seq<Entry>): nat {
    if stack == [] then 0 else StackLater(stack[..|stack| - 1]) + Later(stack[|stack| - 1])
  }

  function Remaining(t: TreeCursor): nat {
    (if t.inContainer then 0 else Size(t.current) - 1) + StackLater(t.stack)
  }

  function Measure(c: Cursor): nat {
    match c
    case Tree(t) => Remaining(t)
    case Json(_, j) => |j.parser.source|
  }

  lemma StackLaterPush(stack: seq<Entry>, e: Entry)
    ensures StackLater(stack + [e]) == StackLater(stack) + Later(e)
  {
    assert (stack + [e])[..|stack|] == stack;
  }

  lemma LaterOfFirst(v: JSValue)
    requires InRange(Entry(v, 0))
    ensures Later(Entry(v, 0)) + Size(Child(Entry(v, 0))) == Size(v) - 1
  {
  }

  lemma LaterOfNext(e: Entry)
    requires InRange(e) && InRange(e.(index := e.index + 1))
    ensures Later(e.(index := e.index + 1)) + Size(Child(e.(index := e.index + 1))) == Later(e)
  {
    if e.value.Array? {
      var rest := e.value.items[e.index + 1..];
      assert rest[1..] == e.value.items[e.index + 2..];
    } else {
      var rest := e.value.props[e.index + 1..];
      assert rest[1..] == e.value.props[e.index + 2..];
    }
  }

  lemma EnterShrinks(t: TreeCursor)
    requires !t.inContainer && InRange(Entry(t.current, 0))
    ensures Remaining(TreeSetCurrent(t.(stack := t.stack + [Entry(t.current, 0)]), Child(Entry(t.current, 0)))) < Remaining(t)
  {
    hide Later, Size;
    StackLaterPush(t.stack, Entry(t.current, 0));
    LaterOfFirst(t.current);
  }

  lemma AdvanceShrinks(t: TreeCursor)
    requires t.inContainer && t.stack != [] && InRange(Top(t)) && InRange(Top(t).(index := Top(t).index + 1))
    ensures Remaining(TreeSetCurrent(Advance(t), Child(Top(t).(index := Top(t).index + 1)))) < Remaining(t)
  {
    hide Later, Size;
    StackLaterPush(t.stack[..|t.stack| - 1], Top(t).(index := Top(t).index + 1));
    LaterOfNext(Top(t));
  }

  lemma TreeNextFacts(t: TreeCursor)
    requires TreeInv(t)
    ensures TreeNextItem(t).1 ==> Fresh(TreeNextItem(t).0) && Remaining(TreeNextItem(t).0) < Remaining(t)
    ensures TreeNextProperty(t).1.Some? ==> Fresh(TreeNextProperty(t).0) && Remaining(TreeNextProperty(t).0) < Remaining(t)
  {
    hide Remaining;
    if !t.inContainer {
      if InRange(Entry(t.current, 0)) {
        EnterShrinks(t);
      }
    } else if t.stack != [] {
      assert InRange(t.stack[|t.stack| - 1]);
      if InRange(Top(t).(index := Top(t).index + 1)) {
        AdvanceShrinks(t);
      }
    }
  }

  lemma JsonNextFacts(rt: Runtime, j: JsonCursor)
    requires Ready(j.parser)
    ensures Ready(JsonNextItem(rt, j).0.parser) && Ready(JsonNextProperty(rt, j).0.parser)
    ensures |JsonNextItem(rt, j).0.parser.source| <= |j.parser.source|
    ensures |JsonNextProperty(rt, j).0.parser.source| <= |j.parser.source|
    ensures JsonNextItem(rt, j).1 ==> |JsonNextItem(rt, j).0.parser.source| < |j.parser.source|
    ensures JsonNextProperty(rt, j).1.Some? ==> |JsonNextProperty(rt, j).0.parser.source| < |j.parser.source|
  {
    hide ReadNext, Ready, Inv, JsonSetCurrent;
    ReadyIsInv(j.parser);
    ReadNextKeepsReady(rt, j.parser);
    ReadNextProgress(rt, j.parser);
    var p := ReadNext(rt, j.parser).0;
    ReadyIsInv(p);
    ReadNextKeepsReady(rt, p);
  }

  lemma ReadyIsInv(p: Parser)
    requires Ready(p)
    ensures Inv(p)
  {
    hide Inv;
  }

  ghost predicate SameReader(c: Cursor, d: Cursor) {
    c.Tree? == d.Tree? && (c.Json? ==> c.rt == d.rt)
  }

  lemma NextFacts(c: Cursor)
    requires Valid(c)
    ensures Valid(NextItem(c).0) && Valid(NextProperty(c).0)
    ensures SameReader(c, NextItem(c).0) && SameReader(c, NextProperty(c).0)
    ensures NextItem(c).1 ==> Measure(NextItem(c).0) < Measure(c) && (c.Tree? ==> Fresh(NextItem(c).0.tree))
    ensures NextProperty(c).1.Some? ==> Measure(NextProperty(c).0) < Measure(c) && (c.Tree? ==> Fresh(NextProperty(c).0.tree))
    ensures c.Json? ==> Measure(NextItem(c).0) <= Measure(c) && Measure(NextProperty(c).0) <= Measure(c)
  {
    hide TreeInv, Ready, Fresh, TreeNextItem, TreeNextProperty, JsonNextItem, JsonNextProperty, Remaining;
    match c
    case Tree(t) =>
      TreeNextKeepsInv(t);
      TreeNextFacts(t);
    case Json(rt, j) =>
      JsonNextFacts(rt, j);
  }

  // ---------- ReadFrom ----------

  /** Where a tree cursor stands when a loop over GetNextArrayItem, or over GetNextObjectProperty, is done. */
  function EndOfItems(t: TreeCursor): TreeCursor {
    if !t.inContainer then if t.current.Array? then t.(inContainer := t.stack != []) else t
    else if t.stack != [] && Top(t).value.Array? then Leave(t) else t
  }

  function EndOfProps(t: TreeCursor): TreeCursor {
    if !t.inContainer then if t.current.Object? then t.(inContainer := t.stack != []) else t
    else if t.stack != [] && Top(t).value.Object? then Leave(t) else t
  }

  /** Behind the value it stood on. */
  function Past(t: TreeCursor): TreeCursor {
    t.(inContainer := t.stack != [])
  }

  lemma EndOfItemsNext(c: Cursor)
    requires Valid(c)
    ensures c.Tree? && !NextItem(c).1 ==> NextItem(c).0.tree == EndOfItems(c.tree)
    ensures c.Tree? && NextItem(c).1 ==> EndOfItems(Past(NextItem(c).0.tree)) == EndOfItems(c.tree)
  {
    hide JsonNextItem, Ready;
  }

  lemma EndOfPropsNext(c: Cursor)
    requires Valid(c)
    ensures c.Tree? && NextProperty(c).1 == None ==> NextProperty(c).0.tree == EndOfProps(c.tree)
    ensures c.Tree? && NextProperty(c).1.Some? ==> EndOfProps(Past(NextProperty(c).0.tree)) == EndOfProps(c.tree)
  {
    hide JsonNextProperty, Ready;
  }

  /** JSValue::ReadFrom: the value read and where the reader then stands. */
  function ReadValue(c: Cursor): (r: (JSValue, Cursor))
    requires Valid(c)
    ensures Valid(r.1) && SameReader(c, r.1)
    ensures c.Tree? && Fresh(c.tree) ==> r.1 == Tree(Past(c.tree))
    ensures c.Json? ==> Measure(r.1) <= Measure(c)
    decreases Measure(c), 1
  {
    match ValueType(c)
    case ObjectType => var (ps, d) := ReadProps(c, []); (Object(ps), d)
    case ArrayType => var (vs, d) := ReadItems(c, []); (Array(vs), d)
    case _ => (Scalar(c), c)
  }

  function ReadItems(c: Cursor, acc: seq<JSValue>): (r: (seq<JSValue>, Cursor))
    requires Valid(c)
    ensures Valid(r.1) && SameReader(c, r.1)
    ensures c.Tree? ==> r.1 == Tree(EndOfItems(c.tree))
    ensures c.Json? ==> Measure(r.1) <= Measure(c)
    decreases Measure(c), 0
  {
    NextFacts(c);
    EndOfItemsNext(c);
    var (d, found) := NextItem(c);
    if !found then (acc, d)
    else
      var (v, e) := ReadValue(d);
      PastShrinks(d, e);
      ReadItems(e, acc + [v])
  }

  /** std::map::try_emplace keeps the first value of a repeated name. */
  function ReadProps(c: Cursor, acc: seq<Property>): (r: (seq<Property>, Cursor))
    requires Valid(c)
    ensures Valid(r.1) && SameReader(c, r.1)
    ensures c.Tree? ==> r.1 == Tree(EndOfProps(c.tree))
    ensures c.Json? ==> Measure(r.1) <= Measure(c)
    decreases Measure(c), 0
  {
    NextFacts(c);
    EndOfPropsNext(c);
    var (d, name) := NextProperty(c);
    if name == None then (acc, d)
    else
      var (v, e) := ReadValue(d);
      PastShrinks(d, e);
      ReadProps(e, TryEmplace(acc, name.value, v))
  }

  lemma PastShrinks(d: Cursor, e: Cursor)
    requires Valid(d) && SameReader(d, e)
    requires d.Tree? ==> Fresh(d.tree) && e == Tree(Past(d.tree))
    requires d.Json? ==> Measure(e) <= Measure(d)
    ensures Measure(e) <= Measure(d)
  {
  }

  // ---------- the frame rule ----------

  /** From any cursor just moved to a value, ReadFrom returns that value and leaves the reader behind it:
      the stack is unchanged and ready for the next sibling, and from the root the initial state is restored. */
  lemma {:induction false} FrameRule(t: TreeCursor)
    requires TreeInv(t) && Fresh(t)
    ensures ReadValue(Tree(t)) == (Canon(t.current), Tree(Past(t)))
    decreases Remaining(t), 1
  {
    hide TreeInv, ReadItems, ReadProps, CanonItems, CanonProps;
    match t.current
    case Array(items) =>
      ReadTreeItems(t, []);
      assert [] + CanonItems(items) == CanonItems(items);
    case Object(ps) =>
      ReadTreeProps(t, []);
    case _ =>
  }

  /** The items a loop over GetNextArrayItem has still to visit. */
  function ItemsAhead(t: TreeCursor): seq<JSValue> {
    if !t.inContainer then if t.current.Array? then t.current.items else []
    else if t.stack != [] && Top(t).value.Array? && Top(t).index < |Top(t).value.items|
         then Top(t).value.items[Top(t).index + 1..] else []
  }

  function PropsAhead(t: TreeCursor): seq<Property> {
    if !t.inContainer then if t.current.Object? then t.current.props else []
    else if t.stack != [] && Top(t).value.Object? && Top(t).index < |Top(t).value.props|
         then Top(t).value.props[Top(t).index + 1..] else []
  }

  lemma ItemsAheadNext(t: TreeCursor)
    requires TreeInv(t)
    ensures TreeNextItem(t).1 <==> ItemsAhead(t) != []
    ensures TreeNextItem(t).1 ==>
              TreeNextItem(t).0.current == ItemsAhead(t)[0] && ItemsAhead(Past(TreeNextItem(t).0)) == ItemsAhead(t)[1..]
  {
    if t.inContainer {
      assert InRange(t.stack[|t.stack| - 1]);
    }
  }

  lemma PropsAheadNext(t: TreeCursor)
    requires TreeInv(t)
    ensures TreeNextProperty(t).1.Some? <==> PropsAhead(t) != []
    ensures TreeNextProperty(t).1.Some? ==>
              && TreeNextProperty(t).1.value == PropsAhead(t)[0].name
              && TreeNextProperty(t).0.current == PropsAhead(t)[0].value
              && PropsAhead(Past(TreeNextProperty(t).0)) == PropsAhead(t)[1..]
  {
    if t.inContainer {
      assert InRange(t.stack[|t.stack| - 1]);
    }
  }

  lemma {:induction false} ReadTreeItems(t: TreeCursor, acc: seq<JSValue>)
    requires TreeInv(t)
    ensures ReadItems(Tree(t), acc) == (acc + CanonItems(ItemsAhead(t)), Tree(EndOfItems(t)))
    decreases Remaining(t), 0
  {
    hide TreeInv, ItemsAhead, Remaining, EndOfItems, TreeNextItem;
    NextFacts(Tree(t));
    ItemsAheadNext(t);
    var (d, found) := TreeNextItem(t);
    if found {
      FrameRule(d);
      PastShrinks(Tree(d), Tree(Past(d)));
      ReadTreeItems(Past(d), acc + [Canon(d.current)]);
      var ahead := ItemsAhead(t);
      assert acc + [Canon(d.current)] + CanonItems(ahead[1..]) == acc + CanonItems(ahead);
    } else {
      assert acc + CanonItems([]) == acc;
    }
  }

  lemma {:induction false} ReadTreeProps(t: TreeCursor, acc: seq<Property>)
    requires TreeInv(t)
    ensures ReadProps(Tree(t), acc) == (CanonProps(PropsAhead(t), acc), Tree(EndOfProps(t)))
    decreases Remaining(t), 0
  {
    hide TreeInv, PropsAhead, Remaining, EndOfProps, TreeNextProperty;
    NextFacts(Tree(t));
    PropsAheadNext(t);
    var (d, name) := TreeNextProperty(t);
    if name.Some? {
      FrameRule(d);
      PastShrinks(Tree(d), Tree(Past(d)));
      ReadTreeProps(Past(d), TryEmplace(acc, name.value, Canon(d.current)));
    }
  }

  lemma {:induction false} EntryWellFormed(t: TreeCursor, i: nat)
    requires TreeInv(t) && WellFormed(t.root) && i < |t.stack|
    ensures WellFormed(t.stack[i].value)
  {
    if i > 0 {
      EntryWellFormed(t, i - 1);
      assert t.stack[i - 1 + 1].value == Child(t.stack[i - 1]);
    }
  }

  /** In a tree made of maps, as every JSValue is, ReadFrom returns the very subtree the cursor stands on. */
  lemma ReadSubtree(t: TreeCursor)
    requires TreeInv(t) && Fresh(t) && WellFormed(t.root)
    ensures ReadValue(Tree(t)) == (t.current, Tree(Past(t)))
  {
    if t.stack != [] {
      EntryWellFormed(t, |t.stack| - 1);
    }
    CanonOfWellFormed(t.current);
    hide TreeInv;
    FrameRule(t);
  }

  /** Reading a map-based value from its root gives it back, and can be repeated. */
  lemma ReadWholeTree(v: JSValue)
    requires WellFormed(v)
    ensures ReadValue(Tree(OpenTree(v))) == (v, Tree(OpenTree(v)))
  {
    FrameRule(OpenTree(v));
    CanonOfWellFormed(v);
  }

  /** On every text, valid or not, reading ends; what it returns is made of maps. */
  lemma {:induction false} ReadIsWellFormed(c: Cursor)
    requires Valid(c)
    ensures WellFormed(ReadValue(c).0)
    decreases Measure(c), 1
  {
    hide Measure, Valid;
    match ValueType(c)
    case ObjectType => ReadPropsWellFormed(c, []);
    case ArrayType => ReadItemsWellFormed(c, []);
    case _ =>
  }

  /** Whatever the reader and its input, the names of every object in the result ascend unit by unit. */
  lemma ReadNamesAscend(c: Cursor)
    requires Valid(c)
    ensures NamesAscend(ReadValue(c).0)
  {
    ReadIsWellFormed(c);
    WellFormedAscends(ReadValue(c).0);
    hide ReadValue;
  }

  lemma {:induction false} ReadItemsWellFormed(c: Cursor, acc: seq<JSValue>)
    requires Valid(c) && forall i :: 0 <= i < |acc| ==> WellFormed(acc[i])
    ensures forall i :: 0 <= i < |ReadItems(c, acc).0| ==> WellFormed(ReadItems(c, acc).0[i])
    decreases Measure(c), 0
  {
    hide Measure, Valid, NextItem;
    NextFacts(c);
    var (d, found) := NextItem(c);
    if found {
      ReadIsWellFormed(d);
      PastShrinks(d, ReadValue(d).1);
      ReadItemsWellFormed(ReadValue(d).1, acc + [ReadValue(d).0]);
    }
  }

  lemma {:induction false} ReadPropsWellFormed(c: Cursor, acc: seq<Property>)
    requires Valid(c) && Sorted(acc) && forall i :: 0 <= i < |acc| ==> WellFormed(acc[i].value)
    ensures WellFormed(Object(ReadProps(c, acc).0))
    decreases Measure(c), 0
  {
    hide Measure, Valid, NextProperty;
    NextFacts(c);
    var (d, name) := NextProperty(c);
    if name.Some? {
      var v := ReadValue(d).0;
      ReadIsWellFormed(d);
      PastShrinks(d, ReadValue(d).1);
      TryEmplaceSorted(acc, name.value, v);
      TryEmplaceKeeps(acc, name.value, v);
      ReadPropsWellFormed(ReadValue(d).1, TryEmplace(acc, name.value, v));
    }
  }
}
