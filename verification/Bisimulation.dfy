/** On a legal text and on the tree it lists, the JSON reader and the tree reader cannot be told apart
    until the root is exhausted; so ReadFrom over the text gives the value the text denotes. */
module Bisimulation {
  import opened JSValues
  import opened JsonTokens
  import opened JsonSyntax
  import opened Cursors
  import opened ReadFroms

  // ---------- the text still ahead of the reader ----------

  // An open container: its items behind the current one, and the blanks behind its closing bracket.
  datatype Frame =
    | ArrayFrame(items: seq<Item>, after: Text)
    | ObjectFrame(members: seq<Member>, after: Text)

  predicate LegalFrame(rt: Runtime, f: Frame) {
    && Blank(f.after)
    && match f
       case ArrayFrame(items, _) => forall i :: 0 <= i < |items| ==> LegalItem(rt, items[i])
       case ObjectFrame(ms, _) => forall i :: 0 <= i < |ms| ==> LegalMember(rt, ms[i])
  }

  function FrameState(f: Frame): ParseState {
    if f.ArrayFrame? then StartArray else StartObject
  }

  function FrameType(f: Frame): JSValueType {
    if f.ArrayFrame? then ArrayType else ObjectType
  }

  function FrameText(f: Frame): Text {
    (match f
     case ArrayFrame(items, _) => ArrayRest(items)
     case ObjectFrame(ms, _) => ObjectRest(ms)) + f.after
  }

  /** What follows the current value, up to the text behind the root. */
  function Pending(frames: seq<Frame>, tail: Text): Text {
    if frames == [] then tail
    else FrameText(frames[|frames| - 1]) + Pending(frames[..|frames| - 1], tail)
  }

  function States(frames: seq<Frame>): seq<ParseState> {
    seq(|frames|, i requires 0 <= i < |frames| => FrameState(frames[i]))
  }

  predicate FrameMatches(rt: Runtime, f: Frame, e: Entry) {
    && LegalFrame(rt, f) && InRange(e)
    && match f
       case ArrayFrame(items, _) => e.value.Array? && e.value.items[e.index + 1..] == RawItems(rt, items)
       case ObjectFrame(ms, _) => e.value.Object? && e.value.props[e.index + 1..] == RawMembers(rt, ms)
  }

  predicate StacksMatch(rt: Runtime, frames: seq<Frame>, entries: seq<Entry>, types: seq<JSValueType>) {
    && |frames| == |entries| == |types|
    && forall i :: 0 <= i < |frames| ==> FrameMatches(rt, frames[i], entries[i]) && types[i] == FrameType(frames[i])
  }

  // ---------- matching states of the two readers ----------

  datatype Spot =
    | Entering(node: Node, after: Text)  // on a container whose bracket has been read
    | Behind(blank: Text)                // behind a value, the blanks still to come
    | Spent                              // behind the root

  predicate ScalarsAgree(j: JsonCursor, v: JSValue) {
    && j.valueType == v.Type()
    && (match v
        case String(s) => j.text == s
        case Boolean(b) => j.slot == BoolSlot(b)
        case Int64(i) => j.slot == IntSlot(i)
        case Number(d) => j.slot == DoubleSlot(d)
        case _ => true)
  }

  predicate AtSpot(rt: Runtime, p: Parser, t: TreeCursor, frames: seq<Frame>, spot: Spot, tail: Text) {
    match spot
    case Entering(n, after) =>
      && !t.inContainer && IsContainerNode(n) && Legal(rt, n) && Raw(rt, n) == t.current && Blank(after)
      && p.source == Body(n) + after + Pending(frames, tail)
      && p.states == States(frames) + [Kind(n)] && p.text == [] && !p.isString
      && p.allowed == if n.ArrayNode? then ARRAY_START else OBJECT_START
    case Behind(w) =>
      && t.inContainer && frames != [] && Blank(w)
      && p.source == w + Pending(frames, tail) && p.states == States(frames) && p.allowed == AFTER_VALUE
    case Spent =>
      !t.inContainer && frames == [] && p.allowed == NONE && t.current.IsContainer()
  }

  predicate Live(rt: Runtime, j: JsonCursor, t: TreeCursor, frames: seq<Frame>, spot: Spot, tail: Text) {
    && ScalarsAgree(j, t.current) && j.isIterating == t.inContainer
    && StacksMatch(rt, frames, t.stack, j.stack)
    && AtSpot(rt, j.parser, t, frames, spot, tail)
  }

  lemma {:induction false} GettersAgree(rt: Runtime, j: JsonCursor, t: TreeCursor)
    requires ScalarsAgree(j, t.current)
    ensures ValueType(Json(rt, j)) == ValueType(Tree(t)) && GetString(Json(rt, j)) == GetString(Tree(t))
    ensures GetBoolean(Json(rt, j)) == GetBoolean(Tree(t)) && GetInt64(Json(rt, j)) == GetInt64(Tree(t))
    ensures GetDouble(Json(rt, j)) == GetDouble(Tree(t)) && Scalar(Json(rt, j)) == Scalar(Tree(t))
  {
  }

  // ---------- stacks ----------

  lemma PendingPush(frames: seq<Frame>, f: Frame, tail: Text)
    ensures Pending(frames + [f], tail) == FrameText(f) + Pending(frames, tail)
  {
    hide FrameText;
    assert (frames + [f])[..|frames|] == frames;
  }

  lemma FrameTextStarts(f: Frame)
    ensures FrameText(f) != [] && IsEnd(FrameText(f)[0])
  {
    hide ItemText, MemberText;
  }

  lemma PendingStarts(frames: seq<Frame>, tail: Text)
    requires frames != []
    ensures Pending(frames, tail) != [] && IsEnd(Pending(frames, tail)[0])
  {
    FrameTextStarts(frames[|frames| - 1]);
    hide FrameText;
  }

  lemma StatesPush(frames: seq<Frame>, f: Frame)
    ensures States(frames + [f]) == States(frames) + [FrameState(f)]
  {
  }

  lemma StacksPush(rt: Runtime, frames: seq<Frame>, entries: seq<Entry>, types: seq<JSValueType>, f: Frame, e: Entry)
    requires StacksMatch(rt, frames, entries, types) && FrameMatches(rt, f, e)
    ensures StacksMatch(rt, frames + [f], entries + [e], types + [FrameType(f)])
  {
    hide FrameMatches;
  }

  lemma StacksPop(rt: Runtime, frames: seq<Frame>, entries: seq<Entry>, types: seq<JSValueType>)
    requires StacksMatch(rt, frames, entries, types) && frames != []
    ensures StacksMatch(rt, frames[..|frames| - 1], entries[..|entries| - 1], types[..|types| - 1])
    ensures FrameMatches(rt, frames[|frames| - 1], entries[|entries| - 1])
    ensures types[|types| - 1] == FrameType(frames[|frames| - 1])
    ensures frames == frames[..|frames| - 1] + [frames[|frames| - 1]]
  {
    hide FrameMatches;
  }

  // ---------- moving to a value ----------

  lemma RawShape(rt: Runtime, n: Node)
    ensures Raw(rt, n).IsContainer() <==> IsContainerNode(n)
  {
  }

  lemma SetScalar(rt: Runtime, j: JsonCursor, v: JSValue)
    requires !v.IsContainer() && Classify(rt, j.parser) == v
    ensures ScalarsAgree(JsonSetCurrent(rt, j, Value), v) && JsonSetCurrent(rt, j, Value).isIterating
  {
    hide Classify;
  }

  lemma SetContainer(rt: Runtime, j: JsonCursor, n: Node)
    requires IsContainerNode(n)
    ensures ScalarsAgree(JsonSetCurrent(rt, j, Kind(n)), Raw(rt, n)) && !JsonSetCurrent(rt, j, Kind(n)).isIterating
  {
    hide Classify;
  }

  /** Both readers move to the item the parser is in front of. */
  lemma {:induction false} Land(rt: Runtime, p: Parser, it: Item, frames: seq<Frame>, tail: Text, j: JsonCursor, t: TreeCursor)
    returns (spot: Spot)
    requires LegalItem(rt, it) && p.source == ItemText(it) + Pending(frames, tail)
    requires p.allowed == VALUE_EXPECTED || p.allowed == ARRAY_START
    requires frames != [] && p.states == States(frames) && p.text == [] && !p.isString
    requires StacksMatch(rt, frames, t.stack, j.stack)
    ensures IsContainerOrValue(ReadNext(rt, p).1)
    ensures Live(rt, JsonSetCurrent(rt, j.(parser := ReadNext(rt, p).0), ReadNext(rt, p).1),
                 TreeSetCurrent(t, Raw(rt, it.value)), frames, spot, tail)
    ensures !spot.Spent?
  {
    hide ReadNext, ItemText, Pending, StacksMatch, Raw, JsonSetCurrent, Body, Classify, Legal, States;
    PendingStarts(frames, tail);
    assert |States(frames)| > 0 by { StatesLength(frames); }
    ReadItem(rt, p, it, Pending(frames, tail));
    RawShape(rt, it.value);
    var q := ReadNext(rt, p).0;
    if IsContainerNode(it.value) {
      SetContainer(rt, j.(parser := q), it.value);
      spot := Entering(it.value, it.after);
    } else {
      SetScalar(rt, j.(parser := q), Raw(rt, it.value));
      spot := if q.source == Pending(frames, tail) then Behind([]) else Behind(it.after);
      assert [] + Pending(frames, tail) == Pending(frames, tail);
    }
  }

  lemma StatesLength(frames: seq<Frame>)
    ensures |States(frames)| == |frames|
  {
  }

  /** Both readers leave a container whose bracket the parser has just read. */
  lemma {:induction false} Settle(rt: Runtime, j: JsonCursor, t: TreeCursor, frames: seq<Frame>, tail: Text, after: Text)
    returns (spot: Spot)
    requires ScalarsAgree(j, t.current) && StacksMatch(rt, frames, t.stack, j.stack)
    requires j.isIterating == t.inContainer == (frames != [])
    requires frames == [] ==> t.current.IsContainer()
    requires Blank(after) && j.parser.source == after + Pending(frames, tail) && j.parser.states == States(frames)
    requires j.parser.allowed == if frames == [] then NONE else AFTER_VALUE
    ensures Live(rt, j, t, frames, spot, tail) && (spot.Spent? <==> frames == [])
  {
    hide StacksMatch, Pending, States;
    spot := if frames == [] then Spent else Behind(after);
  }

  // ---------- GetNextArrayItem ----------

  predicate NonEmpty(v: JSValue) {
    v.IsContainer() && v != Array([]) && v != Object([])
  }

  /** The root has been read to its end, and a call would make the tree reader start over. */
  predicate CanRestart(t: TreeCursor, spot: Spot) {
    spot.Spent? && NonEmpty(t.current)
  }

  /** The call that leaves a root container that has items. */
  predicate Finishes(t: TreeCursor, u: TreeCursor) {
    t.stack != [] && u.stack == []
  }

  ghost predicate ItemStep(rt: Runtime, j: JsonCursor, t: TreeCursor, spot: Spot, frames': seq<Frame>, spot': Spot, tail: Text) {
    var u := TreeNextItem(t).0;
    && JsonNextItem(rt, j).1 == TreeNextItem(t).1
    && Live(rt, JsonNextItem(rt, j).0, u, frames', spot', tail)
    && (CanRestart(u, spot') <==> CanRestart(t, spot) || Finishes(t, u))
  }

  lemma {:induction false} EnterArray(rt: Runtime, j: JsonCursor, t: TreeCursor, frames: seq<Frame>, spot: Spot, tail: Text)
    returns (frames': seq<Frame>, spot': Spot)
    requires Live(rt, j, t, frames, spot, tail) && spot.Entering? && spot.node.ArrayNode?
    ensures ItemStep(rt, j, t, spot, frames', spot', tail)
  {
    hide ReadNext, StacksMatch, JsonSetCurrent, ItemText, Pending, States;
    var ArrayNode(pad, items) := spot.node;
    var after := spot.after;
    var p := j.parser;
    StatesLength(frames);
    if items == [] {
      assert p.source == pad + [RBRACKET] + (after + Pending(frames, tail));
      ReadClose(rt, p, pad, after + Pending(frames, tail));
      assert p.states[..|p.states| - 1] == States(frames);
      frames' := frames;
      StacksLength(rt, frames, t.stack, j.stack);
      spot' := Settle(rt, JsonNextItem(rt, j).0, TreeNextItem(t).0, frames, tail, after);
    } else {
      var f := ArrayFrame(items[1..], after);
      frames' := frames + [f];
      PendingPush(frames, f, tail);
      StatesPush(frames, f);
      assert p.source == ItemText(items[0]) + Pending(frames', tail);
      var e := Entry(t.current, 0);
      assert RawItems(rt, items)[1..] == RawItems(rt, items[1..]);
      StacksPush(rt, frames, t.stack, j.stack, f, e);
      spot' := Land(rt, p, items[0], frames', tail, j.(stack := j.stack + [ArrayType]), t.(stack := t.stack + [e]));
    }
  }

  lemma StacksLength(rt: Runtime, frames: seq<Frame>, entries: seq<Entry>, types: seq<JSValueType>)
    requires StacksMatch(rt, frames, entries, types)
    ensures |frames| == |entries| == |types|
  {
  }

  /** On the last item of an array. */
  lemma {:induction false} LeaveArray(rt: Runtime, j: JsonCursor, t: TreeCursor, frames: seq<Frame>, spot: Spot, tail: Text)
    returns (frames': seq<Frame>, spot': Spot)
    requires Live(rt, j, t, frames, spot, tail) && spot.Behind?
    requires frames[|frames| - 1].ArrayFrame? && frames[|frames| - 1].items == []
    ensures ItemStep(rt, j, t, spot, frames', spot', tail)
  {
    hide ReadNext, StacksMatch, JsonSetCurrent, ItemText, Pending, States, RawItems;
    var outer, f := frames[..|frames| - 1], frames[|frames| - 1];
    var p, w := j.parser, spot.blank;
    StacksLength(rt, frames, t.stack, j.stack);
    StacksPop(rt, frames, t.stack, j.stack);
    PendingPush(outer, f, tail);
    StatesPush(outer, f);
    assert p.states[..|p.states| - 1] == States(outer);
    RawItemsAhead(rt, Top(t), f);
    assert p.source == w + [RBRACKET] + (f.after + Pending(outer, tail));
    ReadClose(rt, p, w, f.after + Pending(outer, tail));
    frames' := outer;
    StatesLength(outer);
    spot' := Settle(rt, JsonNextItem(rt, j).0, TreeNextItem(t).0, outer, tail, f.after);
  }

  lemma {:induction false} AdvanceArray(rt: Runtime, j: JsonCursor, t: TreeCursor, frames: seq<Frame>, spot: Spot, tail: Text)
    returns (frames': seq<Frame>, spot': Spot)
    requires Live(rt, j, t, frames, spot, tail) && spot.Behind?
    requires frames[|frames| - 1].ArrayFrame? && frames[|frames| - 1].items != []
    ensures ItemStep(rt, j, t, spot, frames', spot', tail)
  {
    hide ReadNext, StacksMatch, JsonSetCurrent, ItemText, Pending, States, RawItems, FrameText;
    var outer, f := frames[..|frames| - 1], frames[|frames| - 1];
    var p, w := j.parser, spot.blank;
    StacksLength(rt, frames, t.stack, j.stack);
    StacksPop(rt, frames, t.stack, j.stack);
    PendingPush(outer, f, tail);
    StatesPush(outer, f);
    var e := Top(t);
    RawItemsAhead(rt, e, f);
    var g := ArrayFrame(f.items[1..], f.after);
    frames' := outer + [g];
    PendingPush(outer, g, tail);
    StatesPush(outer, g);
    var s := ItemText(f.items[0]) + Pending(frames', tail);
    ArrayFrameText(f, w, Pending(outer, tail));
    ReadComma(rt, p, w, s);
    var q := p.(source := s, text := [], isString := false, allowed := VALUE_EXPECTED);
    StacksPush(rt, outer, t.stack[..|t.stack| - 1], j.stack[..|j.stack| - 1], g, e.(index := e.index + 1));
    assert j.stack == j.stack[..|j.stack| - 1] + [ArrayType];
    spot' := Land(rt, q, f.items[0], frames', tail, j, Advance(t));
  }

  lemma ArrayFrameText(f: Frame, w: Text, s: Text)
    requires f.ArrayFrame? && f.items != []
    ensures w + (FrameText(f) + s) == w + [COMMA] + (ItemText(f.items[0]) + (FrameText(f.(items := f.items[1..])) + s))
  {
    hide ItemText;
  }

  lemma RawItemsAhead(rt: Runtime, e: Entry, f: Frame)
    requires f.ArrayFrame? && FrameMatches(rt, f, e)
    ensures e.value.Array? && (f.items == [] <==> e.index + 1 == |e.value.items|)
    ensures f.items != [] ==>
              && e.index + 1 < |e.value.items| && e.value.items[e.index + 1] == Raw(rt, f.items[0].value)
              && FrameMatches(rt, f.(items := f.items[1..]), e.(index := e.index + 1))
  {
    hide LegalItem;
    var rest := e.value.items[e.index + 1..];
    if f.items != [] {
      assert rest[0] == e.value.items[e.index + 1] && rest[1..] == e.value.items[e.index + 2..];
      assert RawItems(rt, f.items)[1..] == RawItems(rt, f.items[1..]);
    }
  }

  /** GetNextArrayItem answers alike in matching states, and leaves matching states. */
  lemma {:induction false} NextItemAgrees(rt: Runtime, j: JsonCursor, t: TreeCursor, frames: seq<Frame>, spot: Spot, tail: Text)
    returns (frames': seq<Frame>, spot': Spot)
    requires Live(rt, j, t, frames, spot, tail) && !(CanRestart(t, spot) && t.current.Array?)
    ensures ItemStep(rt, j, t, spot, frames', spot', tail)
  {
    if spot.Entering? && spot.node.ArrayNode? {
      frames', spot' := EnterArray(rt, j, t, frames, spot, tail);
    } else if spot.Behind? && frames[|frames| - 1].ArrayFrame? {
      if frames[|frames| - 1].items == [] {
        frames', spot' := LeaveArray(rt, j, t, frames, spot, tail);
      } else {
        frames', spot' := AdvanceArray(rt, j, t, frames, spot, tail);
      }
    } else {
      hide ReadNext, Pending, States;
      frames', spot' := frames, spot;
      if spot.Spent? {
        DeadStaysDead(rt, j.parser);
      } else if spot.Behind? {
        StacksLength(rt, frames, t.stack, j.stack);
        StacksPop(rt, frames, t.stack, j.stack);
      }
    }
  }

  // ---------- GetNextObjectProperty ----------

  ghost predicate PropertyStep(rt: Runtime, j: JsonCursor, t: TreeCursor, spot: Spot, frames': seq<Frame>, spot': Spot, tail: Text) {
    var u := TreeNextProperty(t).0;
    && JsonNextProperty(rt, j).1 == TreeNextProperty(t).1
    && Live(rt, JsonNextProperty(rt, j).0, u, frames', spot', tail)
    && (CanRestart(u, spot') <==> CanRestart(t, spot) || Finishes(t, u))
  }

  /** Both readers move to the member the parser is in front of. */
  lemma {:induction false} LandMember(rt: Runtime, p: Parser, m: Member, frames: seq<Frame>, tail: Text, j: JsonCursor, t: TreeCursor)
    returns (spot: Spot)
    requires LegalMember(rt, m) && p.source == MemberText(m) + Pending(frames, tail)
    requires p.allowed == NAME_EXPECTED || p.allowed == OBJECT_START
    requires frames != [] && p.states == States(frames) && p.text == []
    requires StacksMatch(rt, frames, t.stack, j.stack)
    ensures ReadNext(rt, p).1 == Name
    ensures var r := JsonTakeProperty(rt, j.(parser := ReadNext(rt, p).0));
            r.1 == Some(Decode(rt, m.name)) && Live(rt, r.0, TreeSetCurrent(t, Raw(rt, m.item.value)), frames, spot, tail)
    ensures !spot.Spent?
  {
    hide ReadNext, ItemText, MemberText, Pending, StacksMatch, Raw, JsonSetCurrent, States, Live, Decode, LegalItem;
    StatesLength(frames);
    var s := Pending(frames, tail);
    ReadName(rt, p, m, s);
    var q := ReadNext(rt, p).0;
    assert m.gap + [COLON] + ItemText(m.item) + s == m.gap + [COLON] + (ItemText(m.item) + s);
    ReadColon(rt, q, m.gap, ItemText(m.item) + s);
    var v := q.(source := ItemText(m.item) + s, text := [], isString := false, allowed := VALUE_EXPECTED);
    spot := Land(rt, v, m.item, frames, tail, j, t);
    assert j.(parser := q).(parser := ReadNext(rt, q).0) == j.(parser := ReadNext(rt, v).0);
  }

  lemma {:induction false} EnterObject(rt: Runtime, j: JsonCursor, t: TreeCursor, frames: seq<Frame>, spot: Spot, tail: Text)
    returns (frames': seq<Frame>, spot': Spot)
    requires Live(rt, j, t, frames, spot, tail) && spot.Entering? && spot.node.ObjectNode?
    ensures PropertyStep(rt, j, t, spot, frames', spot', tail)
  {
    hide ReadNext, StacksMatch, JsonTakeProperty, MemberText, Pending, States, Decode;
    var ObjectNode(pad, ms) := spot.node;
    var after := spot.after;
    var p := j.parser;
    StatesLength(frames);
    if ms == [] {
      assert p.source == pad + [RBRACE] + (after + Pending(frames, tail));
      ReadClose(rt, p, pad, after + Pending(frames, tail));
      assert p.states[..|p.states| - 1] == States(frames);
      frames' := frames;
      StacksLength(rt, frames, t.stack, j.stack);
      spot' := Settle(rt, JsonNextProperty(rt, j).0, TreeNextProperty(t).0, frames, tail, after);
    } else {
      var f := ObjectFrame(ms[1..], after);
      frames' := frames + [f];
      PendingPush(frames, f, tail);
      StatesPush(frames, f);
      assert p.source == MemberText(ms[0]) + Pending(frames', tail);
      var e := Entry(t.current, 0);
      assert RawMembers(rt, ms)[1..] == RawMembers(rt, ms[1..]);
      StacksPush(rt, frames, t.stack, j.stack, f, e);
      spot' := LandMember(rt, p, ms[0], frames', tail, j.(stack := j.stack + [ObjectType]), t.(stack := t.stack + [e]));
    }
  }

  /** The parser behind the last member of an object reads its bracket. */
  lemma CloseObject(rt: Runtime, p: Parser, outer: seq<Frame>, f: Frame, w: Text, tail: Text)
    requires f.ObjectFrame? && f.members == [] && Blank(w) && p.allowed == AFTER_VALUE
    requires p.source == w + Pending(outer + [f], tail) && p.states == States(outer + [f])
    ensures var (q, token) := ReadNext(rt, p);
            && token == EndObject && q.source == f.after + Pending(outer, tail) && q.states == States(outer)
            && q.allowed == if outer == [] then NONE else AFTER_VALUE
  {
    hide ReadNext, Pending, States, FrameText;
    PendingPush(outer, f, tail);
    StatesPush(outer, f);
    StatesLength(outer);
    assert p.states[..|p.states| - 1] == States(outer);
    EmptyFrameText(f, w, Pending(outer, tail));
    ReadClose(rt, p, w, f.after + Pending(outer, tail));
  }

  /** The parser behind another member goes over the comma. */
  lemma NextMember(rt: Runtime, p: Parser, outer: seq<Frame>, f: Frame, w: Text, tail: Text)
    requires f.ObjectFrame? && f.members != [] && Blank(w) && p.allowed == AFTER_VALUE
    requires p.source == w + Pending(outer + [f], tail) && p.states == States(outer + [f])
    ensures var g := ObjectFrame(f.members[1..], f.after);
            && p.states == States(outer + [g])
            && ReadNext(rt, p) == ReadNext(rt, p.(source := MemberText(f.members[0]) + Pending(outer + [g], tail),
                                                  text := [], isString := false, allowed := NAME_EXPECTED))
  {
    hide ReadNext, Pending, States, FrameText, MemberText;
    var g := ObjectFrame(f.members[1..], f.after);
    PendingPush(outer, f, tail);
    StatesPush(outer, f);
    PendingPush(outer, g, tail);
    StatesPush(outer, g);
    ObjectFrameText(f, w, Pending(outer, tail));
    ReadComma(rt, p, w, MemberText(f.members[0]) + Pending(outer + [g], tail));
  }

  /** On the last member of an object. */
  lemma {:induction false} LeaveObject(rt: Runtime, j: JsonCursor, t: TreeCursor, frames: seq<Frame>, spot: Spot, tail: Text)
    returns (frames': seq<Frame>, spot': Spot)
    requires Live(rt, j, t, frames, spot, tail) && spot.Behind?
    requires frames[|frames| - 1].ObjectFrame? && frames[|frames| - 1].members == []
    ensures PropertyStep(rt, j, t, spot, frames', spot', tail)
  {
    hide ReadNext, StacksMatch, JsonTakeProperty, Pending, States, FrameMatches, TreeNextProperty, JsonNextProperty;
    var outer, f := frames[..|frames| - 1], frames[|frames| - 1];
    StacksLength(rt, frames, t.stack, j.stack);
    StacksPop(rt, frames, t.stack, j.stack);
    RawMembersAhead(rt, Top(t), f);
    CloseObject(rt, j.parser, outer, f, spot.blank, tail);
    JsonAdvances(rt, j);
    TreeLeaves(t);
    frames' := outer;
    spot' := Settle(rt, JsonNextProperty(rt, j).0, TreeNextProperty(t).0, outer, tail, f.after);
  }

  lemma {:induction false} AdvanceObject(rt: Runtime, j: JsonCursor, t: TreeCursor, frames: seq<Frame>, spot: Spot, tail: Text)
    returns (frames': seq<Frame>, spot': Spot)
    requires Live(rt, j, t, frames, spot, tail) && spot.Behind?
    requires frames[|frames| - 1].ObjectFrame? && frames[|frames| - 1].members != []
    ensures PropertyStep(rt, j, t, spot, frames', spot', tail)
  {
    hide ReadNext, StacksMatch, JsonTakeProperty, MemberText, Pending, States, Decode, FrameMatches, TreeNextProperty, JsonNextProperty;
    var outer, f := frames[..|frames| - 1], frames[|frames| - 1];
    StacksLength(rt, frames, t.stack, j.stack);
    StacksPop(rt, frames, t.stack, j.stack);
    var e := Top(t);
    RawMembersAhead(rt, e, f);
    var g := ObjectFrame(f.members[1..], f.after);
    frames' := outer + [g];
    NextMember(rt, j.parser, outer, f, spot.blank, tail);
    var q := j.parser.(source := MemberText(f.members[0]) + Pending(frames', tail), text := [], isString := false, allowed := NAME_EXPECTED);
    StacksPush(rt, outer, t.stack[..|t.stack| - 1], j.stack[..|j.stack| - 1], g, e.(index := e.index + 1));
    assert j.stack == j.stack[..|j.stack| - 1] + [ObjectType];
    TreeAdvances(t);
    JsonAdvances(rt, j);
    spot' := LandMember(rt, q, f.members[0], frames', tail, j, Advance(t));
  }

  lemma TreeLeaves(t: TreeCursor)
    requires t.inContainer && t.stack != [] && Top(t).value.Object? && Top(t).index + 1 == |Top(t).value.props|
    ensures TreeNextProperty(t) == (Leave(t), None)
  {
  }

  lemma TreeAdvances(t: TreeCursor)
    requires t.inContainer && t.stack != [] && Top(t).value.Object? && Top(t).index + 1 < |Top(t).value.props|
    ensures var p := Top(t).value.props[Top(t).index + 1];
            TreeNextProperty(t) == (TreeSetCurrent(Advance(t), p.value), Some(p.name))
  {
  }

  lemma JsonAdvances(rt: Runtime, j: JsonCursor)
    requires j.isIterating && JsonTopIs(j, ObjectType)
    ensures var (p, token) := ReadNext(rt, j.parser);
            JsonNextProperty(rt, j)
            == if token == Name then JsonTakeProperty(rt, j.(parser := p)) else (JsonLeave(j.(parser := p)), None)
  {
    hide ReadNext, JsonTakeProperty;
  }

  lemma EmptyFrameText(f: Frame, w: Text, s: Text)
    requires f.ObjectFrame? && f.members == []
    ensures w + (FrameText(f) + s) == w + [RBRACE] + (f.after + s)
  {
  }

  lemma ObjectFrameText(f: Frame, w: Text, s: Text)
    requires f.ObjectFrame? && f.members != []
    ensures w + (FrameText(f) + s) == w + [COMMA] + (MemberText(f.members[0]) + (FrameText(f.(members := f.members[1..])) + s))
  {
    hide MemberText;
  }

  lemma RawMembersAhead(rt: Runtime, e: Entry, f: Frame)
    requires f.ObjectFrame? && FrameMatches(rt, f, e)
    ensures Blank(f.after) && e.value.Object? && (f.members == [] <==> e.index + 1 == |e.value.props|)
    ensures f.members != [] ==>
              && LegalMember(rt, f.members[0])
              && e.index + 1 < |e.value.props|
              && e.value.props[e.index + 1] == Property(Decode(rt, f.members[0].name), Raw(rt, f.members[0].item.value))
              && FrameMatches(rt, f.(members := f.members[1..]), e.(index := e.index + 1))
  {
    hide LegalMember, Decode;
    var rest := e.value.props[e.index + 1..];
    if f.members != [] {
      assert rest[0] == e.value.props[e.index + 1] && rest[1..] == e.value.props[e.index + 2..];
      assert RawMembers(rt, f.members)[1..] == RawMembers(rt, f.members[1..]);
    }
  }

  /** GetNextObjectProperty answers alike, name included, in matching states, and leaves matching states. */
  lemma {:induction false} NextPropertyAgrees(rt: Runtime, j: JsonCursor, t: TreeCursor, frames: seq<Frame>, spot: Spot, tail: Text)
    returns (frames': seq<Frame>, spot': Spot)
    requires Live(rt, j, t, frames, spot, tail) && !(CanRestart(t, spot) && t.current.Object?)
    ensures PropertyStep(rt, j, t, spot, frames', spot', tail)
  {
    if spot.Entering? && spot.node.ObjectNode? {
      frames', spot' := EnterObject(rt, j, t, frames, spot, tail);
    } else if spot.Behind? && frames[|frames| - 1].ObjectFrame? {
      if frames[|frames| - 1].members == [] {
        frames', spot' := LeaveObject(rt, j, t, frames, spot, tail);
      } else {
        frames', spot' := AdvanceObject(rt, j, t, frames, spot, tail);
      }
    } else {
      hide ReadNext, Pending, States;
      frames', spot' := frames, spot;
      if spot.Spent? {
        DeadStaysDead(rt, j.parser);
      } else if spot.Behind? {
        StacksLength(rt, frames, t.stack, j.stack);
        StacksPop(rt, frames, t.stack, j.stack);
      }
    }
  }

  // ---------- whole runs ----------

  lemma {:induction false} OpenAgrees(rt: Runtime, lead: Text, n: Node, tail: Text)
    requires Blank(lead) && Legal(rt, n) && IsContainerNode(n)
    ensures Live(rt, OpenJson(rt, lead + NodeText(n) + tail), OpenTree(Raw(rt, n)), [], Entering(n, []), tail)
  {
    hide ReadNext, Step, Legal, Raw, JsonSetCurrent, Body, ArrayBody, ObjectBody;
    var p := NewParser(lead + NodeText(n) + tail);
    assert p.source == lead + (NodeText(n) + tail);
    SkipBlank(rt, p, lead, NodeText(n) + tail);
    var q := p.(source := NodeText(n) + tail);
    OpenStep(rt, q, n, tail);
    var r := q.(source := Body(n) + tail, states := [] + [Kind(n)], text := [], isString := false,
                allowed := if n.ArrayNode? then ARRAY_START else OBJECT_START);
    Stop(rt, q, r, Kind(n));
    SetContainer(rt, JsonCursor(r, NullType, [], false, [], BoolSlot(false)), n);
    RawShape(rt, n);
    assert Body(n) + [] + tail == Body(n) + tail && States([]) == [];
  }

  /** A call that would enter the root's items. */
  predicate Enters(t: TreeCursor, call: Call) {
    NonEmpty(t.current) && ((call == AskItem && t.current.Array?) || (call == AskProperty && t.current.Object?))
  }

  /** Some call enters the root again after an earlier one has left it; `left` says that one already has. */
  predicate Restarts(t: TreeCursor, left: bool, calls: seq<Call>)
    decreases |calls|
  {
    calls != []
    && ((left && Enters(t, calls[0]))
        || (var u := Do(Tree(t), calls[0]).0.tree; Restarts(u, left || Finishes(t, u), calls[1..])))
  }

  lemma {:induction false} CallsAgree(rt: Runtime, j: JsonCursor, t: TreeCursor, frames: seq<Frame>, spot: Spot, tail: Text,
                                      calls: seq<Call>)
    requires Live(rt, j, t, frames, spot, tail)
    ensures Answers(Json(rt, j), calls) == Answers(Tree(t), calls) <==> !Restarts(t, CanRestart(t, spot), calls)
    decreases |calls|
  {
    if calls != [] {
      if CanRestart(t, spot) && Enters(t, calls[0]) {
        RestartDiffers(rt, j, t, frames, spot, tail, calls[0]);
        hide Do;
        assert Answers(Json(rt, j), calls)[0] != Answers(Tree(t), calls)[0];
      } else {
        var frames', spot' := DoAgrees(rt, j, t, frames, spot, tail, calls[0]);
        hide Live, Do, Finishes, CanRestart, Enters;
        var k, u := Do(Json(rt, j), calls[0]).0.json, Do(Tree(t), calls[0]).0.tree;
        CallsAgree(rt, k, u, frames', spot', tail, calls[1..]);
        assert Answers(Json(rt, j), calls)[1..] == Answers(Json(rt, k), calls[1..]);
        assert Answers(Tree(t), calls)[1..] == Answers(Tree(u), calls[1..]);
      }
    }
  }

  lemma RestartDiffers(rt: Runtime, j: JsonCursor, t: TreeCursor, frames: seq<Frame>, spot: Spot, tail: Text, call: Call)
    requires Live(rt, j, t, frames, spot, tail) && CanRestart(t, spot) && Enters(t, call)
    ensures Do(Json(rt, j), call).1 != Do(Tree(t), call).1
  {
    hide ReadNext, JsonSetCurrent;
    DeadStaysDead(rt, j.parser);
  }

  lemma {:induction false} DoAgrees(rt: Runtime, j: JsonCursor, t: TreeCursor, frames: seq<Frame>, spot: Spot, tail: Text, call: Call)
    returns (frames': seq<Frame>, spot': Spot)
    requires Live(rt, j, t, frames, spot, tail) && !(CanRestart(t, spot) && Enters(t, call))
    ensures Do(Json(rt, j), call).1 == Do(Tree(t), call).1
    ensures Do(Json(rt, j), call).0 == Json(rt, Do(Json(rt, j), call).0.json) && Do(Tree(t), call).0.Tree?
    ensures var u := Do(Tree(t), call).0.tree;
            && Live(rt, Do(Json(rt, j), call).0.json, u, frames', spot', tail)
            && (CanRestart(u, spot') <==> CanRestart(t, spot) || Finishes(t, u))
  {
    hide JsonNextItem, JsonNextProperty, TreeNextItem, TreeNextProperty, StacksMatch, AtSpot;
    frames', spot' := frames, spot;
    GettersAgree(rt, j, t);
    if call == AskItem {
      frames', spot' := NextItemAgrees(rt, j, t, frames, spot, tail);
    } else if call == AskProperty {
      frames', spot' := NextPropertyAgrees(rt, j, t, frames, spot, tail);
    }
  }

  /** Whatever a caller asks, in any order and of the wrong kind too, the two readers give the same answers,
      one over a legal text (any blanks, escapes, member order, repeated names, anything behind the root),
      the other over the tree that text lists, exactly as long as no call enters the root again after it was read. */
  lemma ReadersAgree(rt: Runtime, lead: Text, n: Node, tail: Text, calls: seq<Call>)
    requires Blank(lead) && Legal(rt, n) && IsContainerNode(n)
    ensures Answers(Json(rt, OpenJson(rt, lead + NodeText(n) + tail)), calls) == Answers(Tree(OpenTree(Raw(rt, n))), calls)
       <==> !Restarts(OpenTree(Raw(rt, n)), false, calls)
  {
    hide Live, Restarts, OpenJson;
    OpenAgrees(rt, lead, n, tail);
    CallsAgree(rt, OpenJson(rt, lead + NodeText(n) + tail), OpenTree(Raw(rt, n)), [], Entering(n, []), tail, calls);
  }

  // ---------- ReadFrom over a text ----------

  lemma {:induction false} ReadValueAgrees(rt: Runtime, j: JsonCursor, t: TreeCursor, frames: seq<Frame>, spot: Spot, tail: Text)
    returns (frames': seq<Frame>, spot': Spot)
    requires Live(rt, j, t, frames, spot, tail) && Valid(Json(rt, j)) && TreeInv(t) && Fresh(t) && !spot.Spent?
    ensures ReadValue(Json(rt, j)).0 == ReadValue(Tree(t)).0
    ensures Live(rt, ReadValue(Json(rt, j)).1.json, Past(t), frames', spot', tail)
    ensures t.stack != [] ==> !spot'.Spent?
    decreases Remaining(t), 1
  {
    hide StacksMatch, AtSpot, TreeInv, Ready, Remaining;
    GettersAgree(rt, j, t);
    match t.current.Type()
    case ArrayType =>
      frames', spot' := ReadItemsAgree(rt, j, t, frames, spot, tail, []);
    case ObjectType =>
      frames', spot' := ReadPropsAgree(rt, j, t, frames, spot, tail, []);
    case _ =>
      frames', spot' := frames, spot;
      assert t.stack != [] ==> Past(t) == t by { ScalarIsPast(t); }
  }

  lemma ScalarIsPast(t: TreeCursor)
    requires TreeInv(t) && !t.current.IsContainer()
    ensures Past(t) == t
  {
  }

  lemma {:induction false} ReadItemsAgree(rt: Runtime, j: JsonCursor, t: TreeCursor, frames: seq<Frame>, spot: Spot, tail: Text,
                                          acc: seq<JSValue>)
    returns (frames': seq<Frame>, spot': Spot)
    requires Live(rt, j, t, frames, spot, tail) && Valid(Json(rt, j)) && TreeInv(t) && !spot.Spent?
    ensures ReadItems(Json(rt, j), acc).0 == ReadItems(Tree(t), acc).0
    ensures Live(rt, ReadItems(Json(rt, j), acc).1.json, EndOfItems(t), frames', spot', tail)
    ensures EndOfItems(t).stack != [] ==> !spot'.Spent?
    decreases Remaining(t), 0
  {
    hide Live, TreeInv, Ready, Remaining, JsonNextItem, TreeNextItem, EndOfItems;
    NextFacts(Json(rt, j));
    NextFacts(Tree(t));
    EndOfItemsNext(Tree(t));
    frames', spot' := NextItemAgrees(rt, j, t, frames, spot, tail);
    if spot'.Spent? {
      SpentIsOut(rt, JsonNextItem(rt, j).0, TreeNextItem(t).0, frames', spot', tail);
    }
    var (u, found) := TreeNextItem(t);
    if found {
      FoundIsInside(t);
      var k := JsonNextItem(rt, j).0;
      frames', spot' := ReadValueAgrees(rt, k, u, frames', spot', tail);
      PastShrinks(Tree(u), Tree(Past(u)));
      frames', spot' := ReadItemsAgree(rt, ReadValue(Json(rt, k)).1.json, Past(u), frames', spot', tail, acc + [ReadValue(Tree(u)).0]);
    }
  }

  lemma SpentIsOut(rt: Runtime, j: JsonCursor, t: TreeCursor, frames: seq<Frame>, spot: Spot, tail: Text)
    requires Live(rt, j, t, frames, spot, tail) && spot.Spent?
    ensures t.stack == []
  {
  }

  lemma FoundIsInside(t: TreeCursor)
    ensures TreeNextItem(t).1 ==> TreeNextItem(t).0.stack != []
    ensures TreeNextProperty(t).1.Some? ==> TreeNextProperty(t).0.stack != []
  {
  }

  lemma {:induction false} ReadPropsAgree(rt: Runtime, j: JsonCursor, t: TreeCursor, frames: seq<Frame>, spot: Spot, tail: Text,
                                          acc: seq<Property>)
    returns (frames': seq<Frame>, spot': Spot)
    requires Live(rt, j, t, frames, spot, tail) && Valid(Json(rt, j)) && TreeInv(t) && !spot.Spent?
    ensures ReadProps(Json(rt, j), acc).0 == ReadProps(Tree(t), acc).0
    ensures Live(rt, ReadProps(Json(rt, j), acc).1.json, EndOfProps(t), frames', spot', tail)
    ensures EndOfProps(t).stack != [] ==> !spot'.Spent?
    decreases Remaining(t), 0
  {
    hide Live, TreeInv, Ready, Remaining, JsonNextProperty, TreeNextProperty, EndOfProps;
    NextFacts(Json(rt, j));
    NextFacts(Tree(t));
    EndOfPropsNext(Tree(t));
    frames', spot' := NextPropertyAgrees(rt, j, t, frames, spot, tail);
    if spot'.Spent? {
      SpentIsOut(rt, JsonNextProperty(rt, j).0, TreeNextProperty(t).0, frames', spot', tail);
    }
    var (u, name) := TreeNextProperty(t);
    if name.Some? {
      FoundIsInside(t);
      var k := JsonNextProperty(rt, j).0;
      frames', spot' := ReadValueAgrees(rt, k, u, frames', spot', tail);
      PastShrinks(Tree(u), Tree(Past(u)));
      frames', spot' := ReadPropsAgree(rt, ReadValue(Json(rt, k)).1.json, Past(u), frames', spot', tail,
                                       TryEmplace(acc, name.value, ReadValue(Tree(u)).0));
    }
  }

  /** A reader over any text at all is in a valid state, so ReadFrom is defined on it and ends. */
  lemma OpenIsValid(rt: Runtime, source: Text)
    ensures Valid(Json(rt, OpenJson(rt, source)))
  {
    hide ReadNext, JsonSetCurrent;
    ReadNextKeepsReady(rt, NewParser(source));
  }

  /** Reading a legal text gives exactly the value it denotes. */
  lemma ReadText(rt: Runtime, lead: Text, n: Node, tail: Text)
    requires Blank(lead) && Legal(rt, n) && IsContainerNode(n)
    ensures Valid(Json(rt, OpenJson(rt, lead + NodeText(n) + tail)))
    ensures ReadValue(Json(rt, OpenJson(rt, lead + NodeText(n) + tail))).0 == Canon(Raw(rt, n))
  {
    hide Live, OpenJson, ReadValue, Canon;
    var text := lead + NodeText(n) + tail;
    var t := OpenTree(Raw(rt, n));
    OpenIsValid(rt, text);
    OpenAgrees(rt, lead, n, tail);
    var _, _ := ReadValueAgrees(rt, OpenJson(rt, text), t, [], Entering(n, []), tail);
    FrameRule(t);
  }
}
