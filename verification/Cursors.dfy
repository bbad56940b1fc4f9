/** The two implementations of IJSValueReader as state machines: a walk over a tree and a walk over JSON tokens. */
module Cursors {
  import opened JSValues
  import opened JsonTokens

  // ---------- JSValueTreeReader ----------

  // A StackEntry: a container and the position of the iterator in it.
  datatype Entry = Entry(value: JSValue, index: nat)

  datatype TreeCursor = TreeCursor(root: JSValue, current: JSValue, inContainer: bool, stack: seq<Entry>)

  function OpenTree(root: JSValue): TreeCursor {
    TreeCursor(root, root, false, [])
  }

  function TreeSetCurrent(t: TreeCursor, v: JSValue): TreeCursor {
    t.(current := v, inContainer := !v.IsContainer())
  }

  function Top(t: TreeCursor): Entry
    requires t.stack != []
  {
    t.stack[|t.stack| - 1]
  }

  /** Moves the iterator on top of the stack. */
  function Advance(t: TreeCursor): TreeCursor
    requires t.stack != []
  {
    t.(stack := t.stack[..|t.stack| - 1] + [Top(t).(index := Top(t).index + 1)])
  }

  function Leave(t: TreeCursor): TreeCursor
    requires t.stack != []
  {
    t.(current := Top(t).value, stack := t.stack[..|t.stack| - 1], inContainer := |t.stack| > 1)
  }

  function TreeNextProperty(t: TreeCursor): (TreeCursor, Option<Text>) {
    if !t.inContainer then
      if t.current.Object? then
        if t.current.props != [] then
          var p := t.current.props[0];
          (TreeSetCurrent(t.(stack := t.stack + [Entry(t.current, 0)]), p.value), Some(p.name))
        else (t.(inContainer := t.stack != []), None)
      else (t, None)
    else if t.stack != [] && Top(t).value.Object? then
      var i := Top(t).index + 1;
      if i < |Top(t).value.props| then
        var p := Top(t).value.props[i];
        (TreeSetCurrent(Advance(t), p.value), Some(p.name))
      else (Leave(t), None)
    else (t, None)
  }

  function TreeNextItem(t: TreeCursor): (TreeCursor, bool) {
    if !t.inContainer then
      if t.current.Array? then
        if t.current.items != [] then
          (TreeSetCurrent(t.(stack := t.stack + [Entry(t.current, 0)]), t.current.items[0]), true)
        else (t.(inContainer := t.stack != []), false)
      else (t, false)
    else if t.stack != [] && Top(t).value.Array? then
      var i := Top(t).index + 1;
      if i < |Top(t).value.items| then
        (TreeSetCurrent(Advance(t), Top(t).value.items[i]), true)
      else (Leave(t), false)
    else (t, false)
  }

  // ---------- JsonJSValueReader ----------

  // The anonymous union of scalars.
  datatype Slot = BoolSlot(b: bool) | IntSlot(i: I64) | DoubleSlot(d: Double)

  datatype JsonCursor = JsonCursor(
    parser: Parser, valueType: JSValueType, stack: seq<JSValueType>, isIterating: bool, text: Text, slot: Slot)

  function SlotFor(v: JSValue): Slot {
    match v
    case Boolean(b) => BoolSlot(b)
    case Int64(i) => IntSlot(i)
    case Number(d) => DoubleSlot(d)
    // Every failed Get* call has stored its zero; GetBool, asked last, stored false.
    case _ => BoolSlot(false)
  }

  function JsonSetCurrent(rt: Runtime, j: JsonCursor, t: ParseState): (k: JsonCursor)
    ensures k.parser == j.parser && k.stack == j.stack
  {
    match t
    case StartObject => j.(valueType := ObjectType, isIterating := false)
    case StartArray => j.(valueType := ArrayType, isIterating := false)
    case Value =>
      var v := Classify(rt, j.parser);
      if v.String? then j.(valueType := StringType, isIterating := true, text := v.str)
      else j.(valueType := v.Type(), isIterating := true, slot := SlotFor(v))
    case _ => j.(valueType := NullType)
  }

  function OpenJson(rt: Runtime, source: Text): JsonCursor {
    var (p, t) := ReadNext(rt, NewParser(source));
    JsonSetCurrent(rt, JsonCursor(p, NullType, [], false, [], BoolSlot(false)), t)
  }

  /** Reads the value after a name; the name is the parser's text. */
  function JsonTakeProperty(rt: Runtime, j: JsonCursor): (JsonCursor, Option<Text>) {
    var name := if j.parser.isString then j.parser.text else [];
    var (p, t) := ReadNext(rt, j.parser);
    (JsonSetCurrent(rt, j.(parser := p), t), Some(name))
  }

  function JsonLeave(j: JsonCursor): JsonCursor
    requires j.stack != []
  {
    j.(valueType := j.stack[|j.stack| - 1], stack := j.stack[..|j.stack| - 1], isIterating := |j.stack| > 1)
  }

  predicate JsonTopIs(j: JsonCursor, vt: JSValueType) {
    j.stack != [] && j.stack[|j.stack| - 1] == vt
  }

  function JsonNextProperty(rt: Runtime, j: JsonCursor): (JsonCursor, Option<Text>) {
    if !j.isIterating && j.valueType == ObjectType then
      var (p, t) := ReadNext(rt, j.parser);
      if t == Name then JsonTakeProperty(rt, j.(parser := p, stack := j.stack + [ObjectType]))
      else (j.(parser := p, isIterating := j.stack != []), None)
    else if j.isIterating && JsonTopIs(j, ObjectType) then
      var (p, t) := ReadNext(rt, j.parser);
      if t == Name then JsonTakeProperty(rt, j.(parser := p))
      else (JsonLeave(j.(parser := p)), None)
    else (j, None)
  }

  predicate IsContainerOrValue(t: ParseState) {
    t == StartArray || t == StartObject || t == Value
  }

  function JsonNextItem(rt: Runtime, j: JsonCursor): (JsonCursor, bool) {
    if !j.isIterating && j.valueType == ArrayType then
      var (p, t) := ReadNext(rt, j.parser);
      if IsContainerOrValue(t) then (JsonSetCurrent(rt, j.(parser := p, stack := j.stack + [ArrayType]), t), true)
      else (j.(parser := p, isIterating := j.stack != []), false)
    else if j.isIterating && JsonTopIs(j, ArrayType) then
      var (p, t) := ReadNext(rt, j.parser);
      if IsContainerOrValue(t) then (JsonSetCurrent(rt, j.(parser := p), t), true)
      else (JsonLeave(j.(parser := p)), false)
    else (j, false)
  }

  // ---------- the interface ----------

  datatype Cursor = Tree(tree: TreeCursor) | Json(rt: Runtime, json: JsonCursor)

  function ValueType(c: Cursor): JSValueType {
    match c
    case Tree(t) => t.current.Type()
    case Json(_, j) => j.valueType
  }

  function NextProperty(c: Cursor): (Cursor, Option<Text>) {
    match c
    case Tree(t) => var (u, r) := TreeNextProperty(t); (Tree(u), r)
    case Json(rt, j) => var (k, r) := JsonNextProperty(rt, j); (Json(rt, k), r)
  }

  function NextItem(c: Cursor): (Cursor, bool) {
    match c
    case Tree(t) => var (u, r) := TreeNextItem(t); (Tree(u), r)
    case Json(rt, j) => var (k, r) := JsonNextItem(rt, j); (Json(rt, k), r)
  }

  function GetString(c: Cursor): Text {
    match c
    case Tree(t) => if t.current.String? then t.current.str else []
    case Json(_, j) => if j.valueType == StringType then j.text else []
  }

  function GetBoolean(c: Cursor): bool {
    match c
    case Tree(t) => t.current.Boolean? && t.current.b
    case Json(_, j) => j.valueType == BooleanType && j.slot.BoolSlot? && j.slot.b
  }

  function GetInt64(c: Cursor): I64 {
    match c
    case Tree(t) => if t.current.Int64? then t.current.i else 0
    case Json(_, j) => if j.valueType == Int64Type && j.slot.IntSlot? then j.slot.i else 0
  }

  function GetDouble(c: Cursor): Double {
    match c
    case Tree(t) => if t.current.Number? then t.current.d else Finite(0.0)
    case Json(_, j) => if j.valueType == DoubleType && j.slot.DoubleSlot? then j.slot.d else Finite(0.0)
  }

  /** The value a caller gets who asks for a scalar by its own type. */
  function Scalar(c: Cursor): JSValue {
    match ValueType(c)
    case StringType => String(GetString(c))
    case BooleanType => Boolean(GetBoolean(c))
    case Int64Type => Int64(GetInt64(c))
    case DoubleType => Number(GetDouble(c))
    case _ => Null
  }

  // ---------- what holds of a tree cursor after any calls ----------

  predicate InRange(e: Entry) {
    match e.value
    case Array(items) => e.index < |items|
    case Object(ps) => e.index < |ps|
    case _ => false
  }

  /** The child an iterator points at. */
  function Child(e: Entry): JSValue
    requires InRange(e)
  {
    if e.value.Array? then e.value.items[e.index] else e.value.props[e.index].value
  }

  /** The stack is a path of containers from the root, no iterator is at the end of its container,
      and the current node is the one the path leads to. */
  predicate TreeInv(t: TreeCursor) {
    && (forall i :: 0 <= i < |t.stack| ==> InRange(t.stack[i]))
    && (forall i :: 0 <= i < |t.stack| - 1 ==> t.stack[i + 1].value == Child(t.stack[i]))
    && (if t.stack == [] then t.current == t.root
        else t.stack[0].value == t.root && t.current == Child(Top(t)))
    && (t.inContainer ==> t.stack != [])
    && (!t.inContainer && t.stack != [] ==> t.current.IsContainer())
  }

  lemma PushKeepsTreeInv(t: TreeCursor, v: JSValue)
    requires TreeInv(t) && InRange(Entry(t.current, 0)) && v == Child(Entry(t.current, 0))
    ensures TreeInv(TreeSetCurrent(t.(stack := t.stack + [Entry(t.current, 0)]), v))
  {
  }

  lemma AdvanceKeepsTreeInv(t: TreeCursor, v: JSValue)
    requires TreeInv(t) && t.stack != []
    requires InRange(Top(t).(index := Top(t).index + 1)) && v == Child(Top(t).(index := Top(t).index + 1))
    ensures TreeInv(TreeSetCurrent(Advance(t), v))
  {
    var u := TreeSetCurrent(Advance(t), v);
    assert |u.stack| == |t.stack| && u.stack[0].value == t.stack[0].value;
  }

  lemma LeaveKeepsTreeInv(t: TreeCursor)
    requires TreeInv(t) && t.stack != []
    ensures TreeInv(Leave(t))
  {
    var u := Leave(t);
    if u.stack != [] {
      assert t.stack[|u.stack| - 1 + 1].value == Child(t.stack[|u.stack| - 1]);
    }
  }

  lemma TreeNextKeepsInv(t: TreeCursor)
    requires TreeInv(t)
    ensures TreeInv(TreeNextProperty(t).0) && TreeInv(TreeNextItem(t).0)
  {
    hide TreeInv;
    if !t.inContainer {
      if InRange(Entry(t.current, 0)) {
        PushKeepsTreeInv(t, Child(Entry(t.current, 0)));
      } else {
        EmptyKeepsTreeInv(t);
      }
    } else if t.stack != [] {
      LeaveKeepsTreeInv(t);
      if InRange(Top(t).(index := Top(t).index + 1)) {
        AdvanceKeepsTreeInv(t, Child(Top(t).(index := Top(t).index + 1)));
      }
    }
  }

  lemma EmptyKeepsTreeInv(t: TreeCursor)
    requires TreeInv(t)
    ensures TreeInv(t.(inContainer := t.stack != []))
  {
  }

  // Height of a tree, and depth of a cursor in it.

  function Height(v: JSValue): nat
    decreases v, 1
  {
    match v
    case Array(items) => 1 + ItemsHeight(items)
    case Object(ps) => 1 + PropsHeight(ps)
    case _ => 0
  }

  function ItemsHeight(items: seq<JSValue>): nat
    decreases items, 0
  {
    if items == [] then 0 else var h, k := Height(items[0]), ItemsHeight(items[1..]); if h > k then h else k
  }

  function PropsHeight(ps: seq<Property>): nat
    decreases ps, 0
  {
    if ps == [] then 0 else var h, k := Height(ps[0].value), PropsHeight(ps[1..]); if h > k then h else k
  }

  lemma {:induction false} ItemHeight(items: seq<JSValue>, i: nat)
    requires i < |items|
    ensures Height(items[i]) <= ItemsHeight(items)
  {
    if i > 0 {
      ItemHeight(items[1..], i - 1);
    }
  }

  lemma {:induction false} PropHeight(ps: seq<Property>, i: nat)
    requires i < |ps|
    ensures Height(ps[i].value) <= PropsHeight(ps)
  {
    if i > 0 {
      PropHeight(ps[1..], i - 1);
    }
  }

  lemma ChildIsLower(e: Entry)
    requires InRange(e)
    ensures Height(Child(e)) < Height(e.value)
  {
    if e.value.Array? {
      ItemHeight(e.value.items, e.index);
    } else {
      PropHeight(e.value.props, e.index);
    }
  }

  lemma {:induction false} EntryHeight(t: TreeCursor, i: nat)
    requires TreeInv(t) && i < |t.stack|
    ensures Height(t.stack[i].value) + i <= Height(t.root)
  {
    if i > 0 {
      EntryHeight(t, i - 1);
      ChildIsLower(t.stack[i - 1]);
      assert t.stack[i - 1 + 1].value == Child(t.stack[i - 1]);
    }
  }

  /** The stack is never deeper than the tree is high. */
  lemma DepthWithinHeight(t: TreeCursor)
    requires TreeInv(t)
    ensures |t.stack| + Height(t.current) <= Height(t.root)
  {
    if t.stack != [] {
      EntryHeight(t, |t.stack| - 1);
      ChildIsLower(Top(t));
    }
  }

  // ---------- sequences of calls ----------

  datatype Call = AskType | AskProperty | AskItem | AskString | AskBoolean | AskInt64 | AskDouble

  datatype Answer =
    | IsType(valueType: JSValueType)
    | HasProperty(name: Option<Text>)
    | HasItem(found: bool)
    | IsString(str: Text)
    | IsBoolean(b: bool)
    | IsInt64(i: I64)
    | IsDouble(d: Double)

  function Do(c: Cursor, call: Call): (Cursor, Answer) {
    match call
    case AskType => (c, IsType(ValueType(c)))
    case AskProperty => var (d, r) := NextProperty(c); (d, HasProperty(r))
    case AskItem => var (d, r) := NextItem(c); (d, HasItem(r))
    case AskString => (c, IsString(GetString(c)))
    case AskBoolean => (c, IsBoolean(GetBoolean(c)))
    case AskInt64 => (c, IsInt64(GetInt64(c)))
    case AskDouble => (c, IsDouble(GetDouble(c)))
  }

  function AfterCalls(c: Cursor, calls: seq<Call>): Cursor
    decreases |calls|
  {
    if calls == [] then c else AfterCalls(Do(c, calls[0]).0, calls[1..])
  }

  function Answers(c: Cursor, calls: seq<Call>): seq<Answer>
    decreases |calls|
  {
    if calls == [] then [] else [Do(c, calls[0]).1] + Answers(Do(c, calls[0]).0, calls[1..])
  }

  lemma {:induction false} AfterCallsIsTree(t: TreeCursor, calls: seq<Call>)
    requires TreeInv(t)
    ensures AfterCalls(Tree(t), calls).Tree? && TreeInv(AfterCalls(Tree(t), calls).tree)
    ensures AfterCalls(Tree(t), calls).tree.root == t.root
    decreases |calls|
  {
    hide TreeInv;
    if calls != [] {
      var u := Do(Tree(t), calls[0]).0;
      TreeNextKeepsInv(t);
      AfterCallsIsTree(u.tree, calls[1..]);
    }
  }

  /** Any calls in any order keep the path invariant and stay within the height of the tree. */
  lemma TreeCursorInvariant(root: JSValue, calls: seq<Call>)
    ensures var c := AfterCalls(Tree(OpenTree(root)), calls);
            c.Tree? && TreeInv(c.tree) && c.tree.root == root && |c.tree.stack| <= Height(root)
  {
    AfterCallsIsTree(OpenTree(root), calls);
    DepthWithinHeight(AfterCalls(Tree(OpenTree(root)), calls).tree);
  }
}
