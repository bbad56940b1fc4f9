/** On every text, valid or not, the tokens returned before the first error begin the token list of one document. */
module JsonNesting {
  import opened JSValues
  import opened JsonTokens

  // ---------- documents and their tokens ----------

  datatype Doc = Leaf | Arr(items: seq<Doc>) | Obj(values: seq<Doc>)

  function DocTokens(d: Doc): seq<ParseState>
    decreases d, 1
  {
    match d
    case Leaf => [Value]
    case Arr(items) => [StartArray] + ListTokens(false, items) + [EndArray]
    case Obj(values) => [StartObject] + ListTokens(true, values) + [EndObject]
  }

  /** The children of a container, each behind a Name in an object. */
  function ListTokens(isObject: bool, ds: seq<Doc>): seq<ParseState>
    decreases ds, 0
  {
    if ds == [] then []
    else ListTokens(isObject, ds[..|ds| - 1]) + (if isObject then [Name] else []) + DocTokens(ds[|ds| - 1])
  }

  // ---------- documents under construction ----------

  // An open container: its finished children, and whether a name waits for its value.
  datatype Level = Level(isObject: bool, done: seq<Doc>, named: bool)

  datatype Progress = Nothing | Open(levels: seq<Level>) | Complete(root: Doc)

  function Kind(l: Level): ParseState {
    if l.isObject then StartObject else StartArray
  }

  function LevelTokens(l: Level): seq<ParseState> {
    [Kind(l)] + ListTokens(l.isObject, l.done) + (if l.named then [Name] else [])
  }

  function Flatten(ls: seq<Level>): seq<ParseState> {
    if ls == [] then [] else Flatten(ls[..|ls| - 1]) + LevelTokens(ls[|ls| - 1])
  }

  function Emitted(g: Progress): seq<ParseState> {
    match g
    case Nothing => []
    case Open(ls) => Flatten(ls)
    case Complete(d) => DocTokens(d)
  }

  function Finish(l: Level): Doc {
    if l.isObject then Obj(l.done) else Arr(l.done)
  }

  function AddChild(l: Level, d: Doc): Level {
    l.(done := l.done + [d], named := false)
  }

  function AddToLast(ls: seq<Level>, d: Doc): seq<Level>
    requires ls != []
  {
    ls[..|ls| - 1] + [AddChild(ls[|ls| - 1], d)]
  }

  lemma FlattenPush(ls: seq<Level>, l: Level)
    ensures Flatten(ls + [l]) == Flatten(ls) + LevelTokens(l)
  {
    assert (ls + [l])[..|ls|] == ls;
  }

  lemma AddChildTokens(l: Level, d: Doc)
    requires l.isObject == l.named
    ensures LevelTokens(AddChild(l, d)) == LevelTokens(l) + DocTokens(d)
  {
    assert (l.done + [d])[..|l.done|] == l.done;
  }

  lemma AddToLastTokens(ls: seq<Level>, d: Doc)
    requires ls != [] && ls[|ls| - 1].isObject == ls[|ls| - 1].named
    ensures Flatten(AddToLast(ls, d)) == Flatten(ls) + DocTokens(d)
  {
    var outer, l := ls[..|ls| - 1], ls[|ls| - 1];
    hide LevelTokens, AddChild, DocTokens;
    FlattenPush(outer, AddChild(l, d));
    AddChildTokens(l, d);
  }

  lemma FinishTokens(l: Level)
    requires !l.named
    ensures LevelTokens(l) + [if l.isObject then EndObject else EndArray] == DocTokens(Finish(l))
  {
  }

  // ---------- every document under construction can be completed ----------

  /** Outer levels wait for the container inside them. */
  predicate Nested(ls: seq<Level>) {
    && (forall i :: 0 <= i < |ls| && !ls[i].isObject ==> !ls[i].named)
    && (forall i :: 0 <= i < |ls| - 1 && ls[i].isObject ==> ls[i].named)
  }

  lemma {:induction false} Completion(ls: seq<Level>) returns (d: Doc)
    requires ls != [] && Nested(ls)
    ensures !d.Leaf? && Flatten(ls) <= DocTokens(d)
    decreases |ls|
  {
    hide DocTokens, ListTokens, LevelTokens, AddChild;
    var outer, l := ls[..|ls| - 1], ls[|ls| - 1];
    var closed := if l.named then AddChild(l, Leaf) else l;
    ClosedTokens(l);
    var child := Finish(closed);
    if outer == [] {
      d := child;
      assert Flatten(ls) == [] + LevelTokens(l) == LevelTokens(l);
    } else {
      AddToLastTokens(outer, child);
      NestedAdd(ls, child);
      d := Completion(AddToLast(outer, child));
      assert Flatten(ls) <= Flatten(outer) + DocTokens(child);
    }
  }

  lemma ClosedTokens(l: Level)
    requires l.named ==> l.isObject
    ensures LevelTokens(l) <= DocTokens(Finish(if l.named then AddChild(l, Leaf) else l))
  {
    var closed := if l.named then AddChild(l, Leaf) else l;
    FinishTokens(closed);
    if l.named {
      AddChildTokens(l, Leaf);
    }
  }

  lemma NestedAdd(ls: seq<Level>, d: Doc)
    requires Nested(ls) && |ls| >= 2
    ensures Nested(AddToLast(ls[..|ls| - 1], d))
  {
  }

  // ---------- one more token ----------

  function Kinds(ls: seq<Level>): seq<ParseState> {
    seq(|ls|, i requires 0 <= i < |ls| => Kind(ls[i]))
  }

  /** The levels are those of the open containers, and a value is due in the innermost object or is not. */
  predicate Waits(ls: seq<Level>, open: seq<ParseState>, due: bool) {
    && ls != [] && Nested(ls) && open == Kinds(ls)
    && (ls[|ls| - 1].isObject ==> ls[|ls| - 1].named == due)
  }

  lemma WaitsShape(ls: seq<Level>, open: seq<ParseState>, due: bool)
    requires Waits(ls, open, due)
    ensures |open| == |ls| && open[|open| - 1] == Kind(ls[|ls| - 1])
  {
  }

  /** In an array no name is ever due. */
  lemma ArrayWaits(ls: seq<Level>, open: seq<ParseState>, due: bool, due': bool)
    requires Waits(ls, open, due) && (due == due' || open[|open| - 1] == StartArray)
    ensures Waits(ls, open, due')
  {
  }

  lemma PushWaits(ls: seq<Level>, open: seq<ParseState>, l: Level)
    requires Waits(ls, open, true) && l.done == [] && !l.named
    ensures Waits(ls + [l], open + [Kind(l)], false)
    ensures Flatten(ls + [l]) == Flatten(ls) + [Kind(l)]
  {
    FlattenPush(ls, l);
    assert LevelTokens(l) == [Kind(l)];
    hide Flatten;
    assert Kinds(ls + [l]) == Kinds(ls) + [Kind(l)];
  }

  lemma AddWaits(ls: seq<Level>, open: seq<ParseState>, d: Doc)
    requires Waits(ls, open, true)
    ensures Waits(AddToLast(ls, d), open, false)
  {
    var ms := AddToLast(ls, d);
    assert |ms| == |ls| && forall i :: 0 <= i < |ls| - 1 ==> ms[i] == ls[i];
    assert Kinds(ms) == Kinds(ls);
  }

  lemma ValueWaits(ls: seq<Level>, open: seq<ParseState>)
    requires Waits(ls, open, true)
    ensures Waits(AddToLast(ls, Leaf), open, false)
    ensures Flatten(AddToLast(ls, Leaf)) == Flatten(ls) + [Value]
  {
    hide Flatten, ListTokens, LevelTokens;
    AddToLastTokens(ls, Leaf);
    AddWaits(ls, open, Leaf);
  }

  lemma NameWaits(ls: seq<Level>, open: seq<ParseState>)
    requires Waits(ls, open, false) && open[|open| - 1] == StartObject
    ensures var ms := ls[..|ls| - 1] + [ls[|ls| - 1].(named := true)];
            Waits(ms, open, true) && Flatten(ms) == Flatten(ls) + [Name]
  {
    var outer, l := ls[..|ls| - 1], ls[|ls| - 1];
    FlattenPush(outer, l.(named := true));
    assert LevelTokens(l.(named := true)) == LevelTokens(l) + [Name];
    assert Kinds(outer + [l.(named := true)]) == Kinds(ls);
  }

  lemma CloseWaits(ls: seq<Level>, open: seq<ParseState>)
    requires Waits(ls, open, false)
    ensures var outer, l := ls[..|ls| - 1], ls[|ls| - 1];
            var t := if l.isObject then EndObject else EndArray;
            if |ls| == 1 then DocTokens(Finish(l)) == Flatten(ls) + [t]
            else Waits(AddToLast(outer, Finish(l)), open[..|open| - 1], false)
                 && Flatten(AddToLast(outer, Finish(l))) == Flatten(ls) + [t]
  {
    hide ListTokens, LevelTokens, DocTokens;
    var outer, l := ls[..|ls| - 1], ls[|ls| - 1];
    FinishTokens(l);
    if |ls| == 1 {
      assert Flatten(ls) == [] + LevelTokens(l) == LevelTokens(l);
    } else {
      AddToLastTokens(outer, Finish(l));
      NestedAdd(ls, Finish(l));
      assert Kinds(AddToLast(outer, Finish(l))) == Kinds(ls)[..|ls| - 1];
    }
  }

  // ---------- what of this the parser shows ----------

  /** The open containers of the parser, without the name or value it is inside. */
  function OpenContainers(p: Parser): seq<ParseState> {
    if TopIs(p, Name) || TopIs(p, Value) then p.states[..|p.states| - 1] else p.states
  }

  predicate ValueDue(p: Parser) {
    p.allowed == COLON_EXPECTED || p.allowed == VALUE_EXPECTED || TopIs(p, Value)
  }

  predicate Builds(p: Parser, g: Progress) {
    match g
    case Nothing => p.allowed == START && p.states == []
    case Open(ls) => p.allowed != NONE && p.allowed != START && Waits(ls, OpenContainers(p), ValueDue(p))
    case Complete(d) => p.allowed == NONE && !d.Leaf?
  }

  /** The document after one more token. */
  function Extend(g: Progress, t: ParseState): Progress {
    match g
    case Nothing => if t == StartArray || t == StartObject then Open([Level(t == StartObject, [], false)]) else g
    case Open(ls) =>
      if ls == [] then g
      else if t == StartArray || t == StartObject then Open(ls + [Level(t == StartObject, [], false)])
      else if t == Name then Open(ls[..|ls| - 1] + [ls[|ls| - 1].(named := true)])
      else if t == Value then Open(AddToLast(ls, Leaf))
      else if |ls| == 1 then Complete(Finish(ls[0]))
      else Open(AddToLast(ls[..|ls| - 1], Finish(ls[|ls| - 1])))
    case Complete(_) => g
  }

  ghost predicate StepBuilds(o: Outcome, g: Progress) {
    match o
    case Continue(q) => Builds(q, g)
    case Emit(q, t) => IsError(t) || (Builds(q, Extend(g, t)) && Emitted(Extend(g, t)) == Emitted(g) + [t])
  }

  // The flags of an open container, in these terms.

  lemma OpenOf(p: Parser, g: Progress)
    requires Builds(p, g) && p.allowed != NONE && p.allowed != START
    ensures g.Open? && Waits(g.levels, OpenContainers(p), ValueDue(p))
  {
    hide Waits;
  }

  lemma ContainersAreOpen(p: Parser)
    requires Containers(p.states)
    ensures OpenContainers(p) == p.states
  {
  }

  lemma StartDue(p: Parser)
    requires Inv(p) && p.allowed.startContainer && p.allowed != START
    ensures Containers(p.states) && p.states != [] && (p.allowed == VALUE_EXPECTED || TopIs(p, StartArray))
  {
  }

  lemma BeginDue(p: Parser)
    requires Inv(p) && (p.allowed.beginName || p.allowed.beginValue)
    ensures Containers(p.states) && p.states != []
    ensures p.allowed.beginName ==> TopIs(p, StartObject) && !ValueDue(p)
    ensures !p.allowed.beginName ==> p.allowed == VALUE_EXPECTED || TopIs(p, StartArray)
  {
  }

  lemma EndDue(p: Parser)
    requires Inv(p) && (p.allowed.endContainer || p.allowed.endComma)
    ensures p.states != [] && p.allowed != COLON_EXPECTED && p.allowed != VALUE_EXPECTED
    ensures TopIs(p, Value) ==> |p.states| >= 2 && Containers(p.states[..|p.states| - 1])
    ensures !TopIs(p, Value) ==> Containers(p.states) && !ValueDue(p)
  {
  }

  // ---------- the transitions ----------

  lemma PushEmits(ls: seq<Level>, open: seq<ParseState>, q: Parser, state: ParseState)
    requires Waits(ls, open, true) && IsContainer(state)
    requires OpenContainers(q) == open + [state] && !ValueDue(q) && q.allowed != NONE && q.allowed != START
    ensures StepBuilds(Emit(q, state), Open(ls))
  {
    hide Waits, Flatten, OpenContainers, ValueDue;
    NotEmpty(ls, open, true);
    PushWaits(ls, open, Level(state == StartObject, [], false));
  }

  lemma StartBuilds(p: Parser, g: Progress, state: ParseState)
    requires Inv(p) && Builds(p, g) && IsContainer(state)
    ensures StepBuilds(StartContainer(p, state), g)
  {
    hide Waits, Inv;
    if p.allowed == START {
      StartsRoot(p, state);
    } else if p.allowed.startContainer {
      hide StartContainer, OpenContainers, ValueDue;
      OpenOf(p, g);
      StartDue(p);
      StartView(p, state);
      ContainersAreOpen(p);
      DueOrArray(p);
      ArrayWaits(g.levels, p.states, ValueDue(p), true);
      PushEmits(g.levels, p.states, StartContainer(p, state).next, state);
    }
  }

  lemma NotEmpty(ls: seq<Level>, open: seq<ParseState>, due: bool)
    requires Waits(ls, open, due)
    ensures ls != []
  {
  }

  lemma DueOrArray(p: Parser)
    requires p.states != [] && (p.allowed == VALUE_EXPECTED || TopIs(p, StartArray))
    ensures ValueDue(p) || p.states[|p.states| - 1] == StartArray
  {
  }

  lemma RootWaits(l: Level)
    requires l.done == [] && !l.named
    ensures Waits([l], [Kind(l)], false) && Flatten([l]) == [Kind(l)]
  {
    FlattenPush([], l);
    assert [] + [l] == [l];
    assert Kinds([l]) == [Kind(l)];
  }

  lemma StartsRoot(p: Parser, state: ParseState)
    requires p.allowed == START && p.states == [] && IsContainer(state)
    ensures StepBuilds(StartContainer(p, state), Nothing)
  {
    RootWaits(Level(state == StartObject, [], false));
    StartView(p, state);
    hide Waits, Flatten, OpenContainers, ValueDue, StartContainer;
    assert [] + [state] == [state];
  }

  lemma StartView(p: Parser, state: ParseState)
    requires Containers(p.states) && p.allowed.startContainer && IsContainer(state)
    ensures StartContainer(p, state).Emit? && StartContainer(p, state).token == state
    ensures var q := StartContainer(p, state).next;
            OpenContainers(q) == p.states + [state] && !ValueDue(q) && q.allowed != NONE && q.allowed != START
  {
    assert TopIs(p.(states := p.states + [state]), state);
  }

  /** The end of a value. */
  lemma ValueBuilds(p: Parser, q: Parser, g: Progress)
    requires g.Open? && Builds(p, g) && TopIs(p, Value) && |p.states| >= 2 && Containers(p.states[..|p.states| - 1])
    requires q.states == p.states[..|p.states| - 1] && q.allowed == AFTER_VALUE
    ensures StepBuilds(Emit(q, Value), g)
  {
    ContainersAreOpen(q);
    ValueWaits(g.levels, p.states[..|p.states| - 1]);
    NotEmpty(g.levels, p.states[..|p.states| - 1], true);
    hide Waits, Flatten;
    assert !TopIs(q, Value);
  }

  lemma EndItemView(p: Parser)
    requires p.states != []
    ensures EndItem(p).states == p.states[..|p.states| - 1]
    ensures EndItem(p).allowed == if |p.states| == 1 then NONE else AFTER_VALUE
  {
  }

  lemma EndBuilds(p: Parser, g: Progress, oldState: ParseState, newState: ParseState)
    requires Inv(p) && Builds(p, g)
    requires (oldState == StartArray && newState == EndArray) || (oldState == StartObject && newState == EndObject)
    ensures StepBuilds(EndContainer(p, oldState, newState), g)
  {
    if p.allowed.endContainer {
      EndDue(p);
      EndItemView(p);
      OpenOf(p, g);
      hide Inv, Builds, Extend, Emitted;
      if TopIs(p, Value) {
        ValueBuilds(p, EndItem(p), g);
      } else if TopIs(p, oldState) {
        CloseBuilds(p, EndContainer(p, oldState, newState).next, g, newState);
      }
    } else {
      hide Inv, Builds;
    }
  }

  lemma CloseFlags(p: Parser, g: Progress)
    requires g.Open? && Builds(p, g)
    ensures p.allowed != NONE && p.allowed != START
  {
    hide Waits;
  }

  lemma NotDue(q: Parser)
    requires Containers(q.states) && (q.allowed == NONE || q.allowed == AFTER_VALUE)
    ensures !ValueDue(q)
  {
  }

  lemma CloseEmits(ls: seq<Level>, open: seq<ParseState>, q: Parser, t: ParseState)
    requires Waits(ls, open, false) && open != [] && !ValueDue(q) && OpenContainers(q) == open[..|open| - 1]
    requires q.allowed == if |open| == 1 then NONE else AFTER_VALUE
    requires (open[|open| - 1] == StartArray && t == EndArray) || (open[|open| - 1] == StartObject && t == EndObject)
    ensures StepBuilds(Emit(q, t), Open(ls))
  {
    hide Waits, Flatten, DocTokens, OpenContainers, ValueDue;
    WaitsShape(ls, open, false);
    CloseWaits(ls, open);
  }

  lemma CloseBuilds(p: Parser, q: Parser, g: Progress, t: ParseState)
    requires g.Open? && Builds(p, g) && Containers(p.states) && p.states != [] && !ValueDue(p)
    requires TopIs(p, if t == EndArray then StartArray else StartObject) && (t == EndArray || t == EndObject)
    requires q.states == p.states[..|p.states| - 1] && q.allowed == if |p.states| == 1 then NONE else AFTER_VALUE
    ensures StepBuilds(Emit(q, t), g)
  {
    hide Waits, OpenContainers, ValueDue, StepBuilds;
    CloseFlags(p, g);
    ContainersAreOpen(p);
    ContainersAreOpen(q);
    NotDue(q);
    CloseEmits(g.levels, p.states, q, t);
  }

  lemma CommaBuilds(p: Parser, g: Progress)
    requires Inv(p) && Builds(p, g)
    ensures StepBuilds(Comma(p), g)
  {
    if p.allowed.endComma {
      EndDue(p);
      EndItemView(p);
      OpenOf(p, g);
      if TopIs(p, Value) {
        hide Inv, Builds, Extend, Emitted;
        ValueBuilds(p, EndItem(p), g);
      } else {
        hide Inv, Waits;
        var q := Comma(p).next;
        ContainersAreOpen(p);
        ContainersAreOpen(q);
        ArrayWaits(g.levels, p.states, false, ValueDue(q)) by { CommaView(p); }
      }
    } else {
      hide Inv, Builds;
    }
  }

  lemma CommaView(p: Parser)
    requires p.allowed.endComma && Containers(p.states) && p.states != []
    ensures ValueDue(Comma(p).next) ==> p.states[|p.states| - 1] == StartArray
  {
  }

  lemma BeginStringBuilds(p: Parser, g: Progress)
    requires Inv(p) && Builds(p, g)
    ensures StepBuilds(BeginString(p), g)
  {
    if p.allowed.beginName || p.allowed.beginValue {
      BeginDue(p);
      OpenOf(p, g);
      ContainersAreOpen(p);
      InsideView(p, BeginString(p).next);
      if !p.allowed.beginName {
        DueOrArray(p);
      }
      hide Inv, Waits, OpenContainers, ValueDue;
      ArrayWaits(g.levels, p.states, ValueDue(p), ValueDue(BeginString(p).next));
    } else {
      hide Inv, Builds;
    }
  }

  /** On the way into a name or a value. */
  lemma InsideView(p: Parser, q: Parser)
    requires q.states == p.states + [Name] || q.states == p.states + [Value]
    requires q.allowed == IN_STRING || q.allowed == IN_SCALAR
    ensures OpenContainers(q) == p.states && (ValueDue(q) <==> q.states[|p.states|] == Value)
  {
  }

  lemma ColonBuilds(p: Parser, g: Progress)
    requires Inv(p) && Builds(p, g)
    ensures StepBuilds(Colon(p), g)
  {
    if p.allowed.nameDelim {
      DelimDue(p);
      hide Inv, Waits;
    } else {
      hide Inv, Builds;
    }
  }

  lemma DelimDue(p: Parser)
    requires Inv(p) && p.allowed.nameDelim
    ensures p.allowed == COLON_EXPECTED
  {
  }

  lemma ScalarBuilds(p: Parser, g: Progress, ch: Unit)
    requires Inv(p) && Builds(p, g)
    ensures StepBuilds(ScalarChar(p, ch), g)
  {
    if p.allowed.nonStringChar {
      ScalarFlag(p);
      hide Inv, Waits, Containers;
    } else if p.allowed.beginValue {
      BeginDue(p);
      OpenOf(p, g);
      ContainersAreOpen(p);
      InsideView(p, ScalarChar(p, ch).next);
      if !p.allowed.beginName {
        DueOrArray(p);
      }
      hide Inv, Waits, OpenContainers, ValueDue;
      BeginOne(p);
      ArrayWaits(g.levels, p.states, ValueDue(p), true);
    } else {
      hide Inv, Builds;
    }
  }

  lemma BeginOne(p: Parser)
    requires Inv(p) && p.allowed.beginValue
    ensures !p.allowed.beginName
  {
  }

  lemma StringBuilds(rt: Runtime, p: Parser, g: Progress, ch: Unit)
    requires Inv(p) && Builds(p, g) && p.allowed.stringChar
    ensures StepBuilds(StringStep(rt, p, ch), g)
  {
    hide Inv, Waits;
    StringFlag(p);
    OpenOf(p, g);
    if p.allowed == IN_STRING && ch == QUOTE {
      hide Extend, Emitted, OpenContainers, ValueDue;
      EndItemView(p);
      if TopIs(p, Name) {
        NameBuilds(p, g);
      } else {
        ValueBuilds(p, Inc(EndItem(p)), g);
      }
    } else {
      hide Containers, DecodeHex, Unescape;
    }
  }

  lemma NameEmits(ls: seq<Level>, open: seq<ParseState>, q: Parser)
    requires Waits(ls, open, false) && open != [] && open[|open| - 1] == StartObject
    requires OpenContainers(q) == open && ValueDue(q) && q.allowed == COLON_EXPECTED
    ensures StepBuilds(Emit(q, Name), Open(ls))
  {
    hide Waits, Flatten, OpenContainers, ValueDue;
    NotEmpty(ls, open, false);
    NameWaits(ls, open);
  }

  lemma NameView(p: Parser)
    requires TopIs(p, Name) && p.allowed == IN_STRING && |p.states| >= 2 && Containers(p.states[..|p.states| - 1])
    ensures StringEnd(p).Emit? && StringEnd(p).token == Name
    ensures var q := StringEnd(p).next;
            OpenContainers(q) == OpenContainers(p) == p.states[..|p.states| - 1] && ValueDue(q) && q.allowed == COLON_EXPECTED
    ensures !ValueDue(p)
  {
  }

  lemma NameBuilds(p: Parser, g: Progress)
    requires g.Open? && Builds(p, g) && p.allowed == IN_STRING && TopIs(p, Name)
    requires |p.states| >= 2 && p.states[|p.states| - 2] == StartObject && Containers(p.states[..|p.states| - 1])
    ensures StepBuilds(StringEnd(p), g)
  {
    hide Waits, StepBuilds, OpenContainers, ValueDue, StringEnd, Containers;
    NameView(p);
    NameEmits(g.levels, OpenContainers(p), StringEnd(p).next);
  }

  lemma BlankBuilds(p: Parser, g: Progress)
    requires Builds(p, g)
    ensures StepBuilds(Continue(Inc(p)), g)
  {
    hide Waits;
  }

  lemma AnyStepBuilds(rt: Runtime, p: Parser, g: Progress)
    requires Inv(p) && Builds(p, g) && p.source != []
    ensures StepBuilds(Step(rt, p), g)
  {
    var ch := p.source[0];
    hide StartContainer, EndContainer, Comma, BeginString, Colon, ScalarChar, StringStep, Inv, StepBuilds, Builds;
    if p.allowed.stringChar {
      StringBuilds(rt, p, g, ch);
    } else if IsWhitespace(ch) {
      BlankBuilds(p, g);
    } else if ch == LBRACKET || ch == LBRACE {
      StartBuilds(p, g, if ch == LBRACKET then StartArray else StartObject);
    } else if ch == RBRACKET {
      EndBuilds(p, g, StartArray, EndArray);
    } else if ch == RBRACE {
      EndBuilds(p, g, StartObject, EndObject);
    } else if ch == COMMA {
      CommaBuilds(p, g);
    } else if ch == QUOTE {
      BeginStringBuilds(p, g);
    } else if ch == COLON {
      ColonBuilds(p, g);
    } else {
      ScalarBuilds(p, g, ch);
    }
  }

  lemma {:induction false} ReadNextBuilds(rt: Runtime, p: Parser, g: Progress)
    requires Inv(p) && Builds(p, g) && !IsError(ReadNext(rt, p).1)
    ensures var (q, t) := ReadNext(rt, p); Builds(q, Extend(g, t)) && Emitted(Extend(g, t)) == Emitted(g) + [t]
    decreases |p.source|
  {
    hide Step, Inv, Builds, Extend, Emitted;
    StepKeepsInv(rt, p);
    StepShrinks(rt, p);
    AnyStepBuilds(rt, p, g);
    match Step(rt, p)
    case Continue(q) => ReadNextBuilds(rt, q, g);
    case Emit(_, _) =>
  }

  lemma {:induction false} RunBuilds(rt: Runtime, p: Parser, n: nat) returns (g: Progress)
    requires Ready(p) && Builds(p, Nothing)
    requires forall i :: 0 <= i < n ==> !IsError(ReadNext(rt, After(rt, p, i)).1)
    ensures Builds(After(rt, p, n), g) && Emitted(g) == Tokens(rt, p, n)
  {
    hide ReadNext, Inv, Builds;
    if n == 0 {
      g := Nothing;
    } else {
      var h := RunBuilds(rt, p, n - 1);
      AfterIsReady(rt, p, n - 1);
      var q := After(rt, p, n - 1);
      assert !IsError(ReadNext(rt, q).1);
      ReadNextBuilds(rt, q, h);
      g := Extend(h, ReadNext(rt, q).1);
    }
  }

  /** For every text and every number of calls that all succeed, the tokens begin the token list of one document:
      brackets match, every member is a Name and one value, and nothing follows the root. */
  lemma TokensNest(rt: Runtime, text: Text, n: nat)
    requires forall i :: 0 <= i < n ==> !IsError(ReadNext(rt, After(rt, NewParser(text), i)).1)
    ensures exists d: Doc :: !d.Leaf? && Tokens(rt, NewParser(text), n) <= DocTokens(d)
  {
    hide ReadNext;
    var g := RunBuilds(rt, NewParser(text), n);
    var d := Arr([]);
    match g {
      case Nothing =>
      case Open(ls) => d := Completion(ls);
      case Complete(root) => d := root;
    }
    assert !d.Leaf? && Tokens(rt, NewParser(text), n) <= DocTokens(d);
  }
}
