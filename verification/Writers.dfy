/** JSValue::WriteTo as a stream of writer events, and JSValueTreeWriter, which turns such a stream back into a value. */
module Writers {
  import opened JSValues

  datatype Event =
    | ObjectBegin | PropertyName(name: Text) | ObjectEnd
    | ArrayBegin | ArrayEnd
    | ScalarEvent(value: JSValue)  // WriteNull, WriteBoolean, WriteInt64, WriteDouble, WriteString

  function Events(v: JSValue): seq<Event>
    decreases v, 1
  {
    match v
    case Object(ps) => [ObjectBegin] + PropEvents(ps) + [ObjectEnd]
    case Array(items) => [ArrayBegin] + ItemEvents(items) + [ArrayEnd]
    case _ => [ScalarEvent(v)]
  }

  function ItemEvents(items: seq<JSValue>): seq<Event>
    decreases items, 0
  {
    if items == [] then [] else Events(items[0]) + ItemEvents(items[1..])
  }

  function PropEvents(ps: seq<Property>): seq<Event>
    decreases ps, 0
  {
    if ps == [] then [] else [PropertyName(ps[0].name)] + Events(ps[0].value) + PropEvents(ps[1..])
  }

  // ---------- a prefix code ----------

  lemma FirstEvent(v: JSValue)
    ensures Events(v) != []
    ensures Events(v)[0] == if v.Object? then ObjectBegin else if v.Array? then ArrayBegin else ScalarEvent(v)
  {
    hide ItemEvents, PropEvents;
  }

  /** The events of a value can be told apart from whatever follows them: they determine the value,
      and no value's events are a proper prefix of another's. */
  lemma {:induction false} EventsArePrefixCode(v: JSValue, w: JSValue, s: seq<Event>, t: seq<Event>)
    requires Events(v) + s == Events(w) + t
    ensures v == w && s == t
    decreases v, 1
  {
    FirstEvent(v);
    FirstEvent(w);
    assert (Events(v) + s)[0] == Events(v)[0] && (Events(w) + t)[0] == Events(w)[0];
    assert (Events(v) + s)[1..] == (Events(w) + t)[1..];
    match v
    case Array(items) =>
      assert (Events(v) + s)[1..] == ItemEvents(items) + ([ArrayEnd] + s);
      assert (Events(w) + t)[1..] == ItemEvents(w.items) + ([ArrayEnd] + t);
      ItemsArePrefixCode(items, w.items, s, t);
    case Object(ps) =>
      assert (Events(v) + s)[1..] == PropEvents(ps) + ([ObjectEnd] + s);
      assert (Events(w) + t)[1..] == PropEvents(w.props) + ([ObjectEnd] + t);
      PropsArePrefixCode(ps, w.props, s, t);
    case _ =>
      assert (Events(v) + s)[1..] == s && (Events(w) + t)[1..] == t;
  }

  lemma {:induction false} ItemsArePrefixCode(a: seq<JSValue>, b: seq<JSValue>, s: seq<Event>, t: seq<Event>)
    requires ItemEvents(a) + ([ArrayEnd] + s) == ItemEvents(b) + ([ArrayEnd] + t)
    ensures a == b && s == t
    decreases a, 0
  {
    hide Events;
    var x, y := ItemEvents(a) + ([ArrayEnd] + s), ItemEvents(b) + ([ArrayEnd] + t);
    if a != [] {
      FirstEvent(a[0]);
    }
    if b != [] {
      FirstEvent(b[0]);
    }
    if a == [] || b == [] {
      assert x[0] == y[0];
      assert a == [] && b == [];
      assert x[1..] == s && y[1..] == t;
    } else {
      var s1, t1 := ItemEvents(a[1..]) + ([ArrayEnd] + s), ItemEvents(b[1..]) + ([ArrayEnd] + t);
      assert x == Events(a[0]) + s1 && y == Events(b[0]) + t1;
      EventsArePrefixCode(a[0], b[0], s1, t1);
      ItemsArePrefixCode(a[1..], b[1..], s, t);
      assert a == [a[0]] + a[1..] && b == [b[0]] + b[1..];
    }
  }

  lemma {:induction false} PropsArePrefixCode(a: seq<Property>, b: seq<Property>, s: seq<Event>, t: seq<Event>)
    requires PropEvents(a) + ([ObjectEnd] + s) == PropEvents(b) + ([ObjectEnd] + t)
    ensures a == b && s == t
    decreases a, 0
  {
    hide Events;
    var x, y := PropEvents(a) + ([ObjectEnd] + s), PropEvents(b) + ([ObjectEnd] + t);
    assert x[0] == y[0] && x[1..] == y[1..];
    if a == [] || b == [] {
      assert a == [] && b == [];
      assert x[1..] == s && y[1..] == t;
    } else {
      var s1, t1 := PropEvents(a[1..]) + ([ObjectEnd] + s), PropEvents(b[1..]) + ([ObjectEnd] + t);
      assert x[1..] == Events(a[0].value) + s1 && y[1..] == Events(b[0].value) + t1;
      EventsArePrefixCode(a[0].value, b[0].value, s1, t1);
      PropsArePrefixCode(a[1..], b[1..], s, t);
      assert a == [a[0]] + a[1..] && b == [b[0]] + b[1..];
    }
  }

  // ---------- JSValueTreeWriter ----------

  datatype ContainerType = NoContainer | ObjectContainer | ArrayContainer

  datatype ContainerInfo = ContainerInfo(kind: ContainerType, props: seq<Property>, items: seq<JSValue>, name: Text)

  function NewContainer(kind: ContainerType): ContainerInfo {
    ContainerInfo(kind, [], [], [])
  }

  datatype WriterState = WriterState(stack: seq<ContainerInfo>, result: JSValue)

  function NewWriter(): WriterState {
    WriterState([NewContainer(NoContainer)], Null)
  }

  function SetTop(w: WriterState, c: ContainerInfo): WriterState
    requires w.stack != []
  {
    w.(stack := w.stack[..|w.stack| - 1] + [c])
  }

  function Top(w: WriterState): ContainerInfo
    requires w.stack != []
  {
    w.stack[|w.stack| - 1]
  }

  /** Delivers a finished value to the innermost open container, or as the result. The name is moved out with it. */
  function Put(w: WriterState, v: JSValue): WriterState
    requires w.stack != []
  {
    var top := Top(w);
    match top.kind
    case NoContainer => w.(result := v)
    case ObjectContainer => SetTop(w, top.(props := TryEmplace(top.props, top.name, v), name := []))
    case ArrayContainer => SetTop(w, top.(items := top.items + [v]))
  }

  /** One writer call; None where the source ends the process. */
  function Feed(w: WriterState, e: Event): Option<WriterState>
    requires w.stack != []
  {
    match e
    case ScalarEvent(v) => Some(Put(w, v))
    case ObjectBegin => Some(w.(stack := w.stack + [NewContainer(ObjectContainer)]))
    case ArrayBegin => Some(w.(stack := w.stack + [NewContainer(ArrayContainer)]))
    case PropertyName(n) =>
      if Top(w).kind == ObjectContainer then Some(SetTop(w, Top(w).(name := n))) else None
    case ObjectEnd =>
      if Top(w).kind == ObjectContainer && |w.stack| > 1
      then Some(Put(w.(stack := w.stack[..|w.stack| - 1]), Object(Top(w).props))) else None
    case ArrayEnd =>
      if Top(w).kind == ArrayContainer && |w.stack| > 1
      then Some(Put(w.(stack := w.stack[..|w.stack| - 1]), Array(Top(w).items))) else None
  }

  lemma FeedKeepsStack(w: WriterState, e: Event)
    requires w.stack != []
    ensures Feed(w, e).Some? ==> Feed(w, e).value.stack != []
  {
  }

  function Replay(w: WriterState, es: seq<Event>): Option<WriterState>
    requires w.stack != []
    decreases |es|
  {
    if es == [] then Some(w)
    else
      FeedKeepsStack(w, es[0]);
      match Feed(w, es[0])
      case None => None
      case Some(u) => Replay(u, es[1..])
  }

  lemma {:induction false} ReplayAppend(w: WriterState, a: seq<Event>, b: seq<Event>, u: WriterState)
    requires w.stack != [] && u.stack != [] && Replay(w, a) == Some(u)
    ensures Replay(w, a + b) == Replay(u, b)
    decreases |a|
  {
    hide Feed;
    if a == [] {
      assert a + b == b;
    } else {
      FeedKeepsStack(w, a[0]);
      assert (a + b)[0] == a[0] && (a + b)[1..] == a[1..] + b;
      ReplayAppend(Feed(w, a[0]).value, a[1..], b, u);
    }
  }

  lemma PutKeepsStack(w: WriterState, v: JSValue)
    requires w.stack != []
    ensures Put(w, v).stack != [] && |Put(w, v).stack| == |w.stack|
  {
  }

  /** Whatever is open, replaying the events of a value delivers that value, as maps hold it, and never ends the process. */
  lemma {:induction false} ReplayDelivers(w: WriterState, v: JSValue)
    requires w.stack != []
    ensures Replay(w, Events(v)) == Some(Put(w, Canon(v)))
    decreases v, 1
  {
    PutKeepsStack(w, Canon(v));
    match v
    case Array(items) =>
      var c := NewContainer(ArrayContainer);
      ReplayItems(w, c, items);
      Bracketed(w, ArrayBegin, ItemEvents(items), ArrayEnd, w.(stack := w.stack + [c]),
                w.(stack := w.stack + [c.(items := [] + CanonItems(items))]));
      assert [] + CanonItems(items) == CanonItems(items);
      EndDelivers(w, c.(items := CanonItems(items)));
    case Object(ps) =>
      var c := NewContainer(ObjectContainer);
      var n := ReplayProps(w, c, ps);
      var d := c.(props := CanonProps(ps, []), name := n);
      Bracketed(w, ObjectBegin, PropEvents(ps), ObjectEnd, w.(stack := w.stack + [c]), w.(stack := w.stack + [d]));
      EndDelivers(w, d);
    case _ =>
      assert Events(v) == [ScalarEvent(v)];
      var u := Put(w, v);
      assert Feed(w, ScalarEvent(v)) == Some(u) && Events(v)[1..] == [];
      hide Put;
  }

  lemma EndDelivers(w: WriterState, c: ContainerInfo)
    requires w.stack != []
    ensures c.kind == ArrayContainer ==> Feed(w.(stack := w.stack + [c]), ArrayEnd) == Some(Put(w, Array(c.items)))
    ensures c.kind == ObjectContainer ==> Feed(w.(stack := w.stack + [c]), ObjectEnd) == Some(Put(w, Object(c.props)))
  {
    hide Put;
    var u := w.(stack := w.stack + [c]);
    assert u.stack[..|u.stack| - 1] == w.stack;
  }

  lemma Bracketed(w: WriterState, first: Event, es: seq<Event>, last: Event, u1: WriterState, u2: WriterState)
    requires w.stack != [] && u1.stack != [] && u2.stack != []
    requires Feed(w, first) == Some(u1) && Replay(u1, es) == Some(u2)
    ensures Replay(w, [first] + es + [last]) == Feed(u2, last)
  {
    hide Feed;
    FeedKeepsStack(u2, last);
    assert ([first] + es + [last])[1..] == es + [last];
    ReplayAppend(u1, es, [last], u2);
    assert [last][1..] == [];
  }

  lemma {:induction false} ReplayItems(w: WriterState, c: ContainerInfo, items: seq<JSValue>)
    requires w.stack != [] && c.kind == ArrayContainer
    ensures Replay(w.(stack := w.stack + [c]), ItemEvents(items))
         == Some(w.(stack := w.stack + [c.(items := c.items + CanonItems(items))]))
    decreases items, 0
  {
    hide Feed, Events, Canon;
    var u := w.(stack := w.stack + [c]);
    if items == [] {
      assert c.items + CanonItems(items) == c.items;
    } else {
      hide Replay;
      ReplayDelivers(u, items[0]);
      var d := c.(items := c.items + [Canon(items[0])]);
      PutItem(w, c, Canon(items[0]));
      hide Put;
      ReplayAppend(u, Events(items[0]), ItemEvents(items[1..]), w.(stack := w.stack + [d]));
      ReplayItems(w, d, items[1..]);
      assert d.items + CanonItems(items[1..]) == c.items + CanonItems(items);
    }
  }

  lemma PutItem(w: WriterState, c: ContainerInfo, v: JSValue)
    requires c.kind == ArrayContainer
    ensures Put(w.(stack := w.stack + [c]), v) == w.(stack := w.stack + [c.(items := c.items + [v])])
  {
    var u := w.(stack := w.stack + [c]);
    assert u.stack[..|u.stack| - 1] == w.stack;
  }

  lemma NameStep(w: WriterState, c: ContainerInfo, name: Text, es: seq<Event>)
    requires w.stack != [] && c.kind == ObjectContainer
    ensures Replay(w.(stack := w.stack + [c]), [PropertyName(name)] + es) == Replay(w.(stack := w.stack + [c.(name := name)]), es)
  {
    var u := w.(stack := w.stack + [c]);
    assert u.stack[..|u.stack| - 1] == w.stack && ([PropertyName(name)] + es)[1..] == es;
  }

  lemma {:induction false} ReplayProps(w: WriterState, c: ContainerInfo, ps: seq<Property>) returns (name: Text)
    requires w.stack != [] && c.kind == ObjectContainer
    ensures Replay(w.(stack := w.stack + [c]), PropEvents(ps))
         == Some(w.(stack := w.stack + [c.(props := CanonProps(ps, c.props), name := name)]))
    decreases ps, 0
  {
    if ps == [] {
      name := c.name;
    } else {
      hide Feed, Events;
      var first := Events(ps[0].value);
      NameStep(w, c, ps[0].name, first + PropEvents(ps[1..]));
      assert PropEvents(ps) == [PropertyName(ps[0].name)] + (first + PropEvents(ps[1..]));
      var n := c.(name := ps[0].name);
      var u := w.(stack := w.stack + [n]);
      ReplayDelivers(u, ps[0].value);
      var d := c.(props := TryEmplace(c.props, ps[0].name, Canon(ps[0].value)), name := []);
      assert u.stack[..|u.stack| - 1] == w.stack;
      hide Replay;
      ReplayAppend(u, first, PropEvents(ps[1..]), w.(stack := w.stack + [d]));
      name := ReplayProps(w, d, ps[1..]);
    }
  }

  /** Writing a value into a new tree writer and taking the result gives the value back. */
  lemma WriteRoundTrip(v: JSValue)
    requires WellFormed(v)
    ensures Replay(NewWriter(), Events(v)) == Some(NewWriter().(result := v))
  {
    ReplayDelivers(NewWriter(), v);
    CanonOfWellFormed(v);
  }

  class JSValueTreeWriter {
    var containerStack: seq<ContainerInfo>
    var resultValue: JSValue

    function State(): WriterState
      reads this
    {
      WriterState(containerStack, resultValue)
    }

    constructor ()
      ensures State() == NewWriter()
    {
      containerStack := [NewContainer(NoContainer)];
      resultValue := Null;
    }

    method TakeValue() returns (v: JSValue)
      modifies this`resultValue
      ensures v == old(resultValue) && resultValue == Null
    {
      v := resultValue;
      resultValue := Null;
    }

    method WriteValue(value: JSValue)
      requires containerStack != []
      modifies this
      ensures containerStack != [] && State() == Put(old(State()), value)
    {
      var top := containerStack[|containerStack| - 1];
      match top.kind
      case NoContainer => resultValue := value;
      case ObjectContainer =>
        top := top.(props := TryEmplace(top.props, top.name, value), name := []);
        containerStack := containerStack[..|containerStack| - 1] + [top];
      case ArrayContainer =>
        top := top.(items := top.items + [value]);
        containerStack := containerStack[..|containerStack| - 1] + [top];
    }

    method WriteObjectBegin()
      modifies this`containerStack
      ensures containerStack == old(containerStack) + [NewContainer(ObjectContainer)]
    {
      containerStack := containerStack + [NewContainer(ObjectContainer)];
    }

    method WriteArrayBegin()
      modifies this`containerStack
      ensures containerStack == old(containerStack) + [NewContainer(ArrayContainer)]
    {
      containerStack := containerStack + [NewContainer(ArrayContainer)];
    }

    method WritePropertyName(name: Text)
      requires containerStack != [] && Top(State()).kind == ObjectContainer
      modifies this`containerStack
      ensures containerStack != [] && Some(State()) == Feed(old(State()), PropertyName(name))
    {
      var top := containerStack[|containerStack| - 1];
      containerStack := containerStack[..|containerStack| - 1] + [top.(name := name)];
    }

    method WriteObjectEnd()
      requires |containerStack| > 1 && Top(State()).kind == ObjectContainer
      modifies this
      ensures containerStack != [] && Some(State()) == Feed(old(State()), ObjectEnd)
    {
      var value := Object(containerStack[|containerStack| - 1].props);
      containerStack := containerStack[..|containerStack| - 1];
      WriteValue(value);
    }

    method WriteArrayEnd()
      requires |containerStack| > 1 && Top(State()).kind == ArrayContainer
      modifies this
      ensures containerStack != [] && Some(State()) == Feed(old(State()), ArrayEnd)
    {
      var value := Array(containerStack[|containerStack| - 1].items);
      containerStack := containerStack[..|containerStack| - 1];
      WriteValue(value);
    }
  }

  /** JSValue::WriteTo driving a tree writer; every check of the writer is met. */
  method WriteTo(v: JSValue, writer: JSValueTreeWriter)
    requires writer.containerStack != []
    modifies writer
    ensures writer.containerStack != [] && writer.State() == Put(old(writer.State()), Canon(v))
    decreases v, 1
  {
    match v
    case Array(items) => WriteArrayTo(items, writer);
    case Object(ps) => WriteObjectTo(ps, writer);
    case _ => writer.WriteValue(v);
  }

  lemma OpenTop(w: WriterState, c: ContainerInfo)
    ensures var u := w.(stack := w.stack + [c]);
            u.stack != [] && Top(u) == c && u.stack[..|u.stack| - 1] == w.stack
    ensures forall d :: SetTop(w.(stack := w.stack + [c]), d) == w.(stack := w.stack + [d])
  {
    assert (w.stack + [c])[..|w.stack|] == w.stack;
  }

  method WriteArrayTo(items: seq<JSValue>, writer: JSValueTreeWriter)
    requires writer.containerStack != []
    modifies writer
    ensures writer.containerStack != [] && writer.State() == Put(old(writer.State()), Array(CanonItems(items)))
    decreases items, 0
  {
    ghost var w := writer.State();
    ghost var c := NewContainer(ArrayContainer);
    writer.WriteArrayBegin();
    for k := 0 to |items|
      invariant writer.State() == w.(stack := w.stack + [c])
      invariant c.kind == ArrayContainer && c.items + CanonItems(items[k..]) == CanonItems(items)
    {
      OpenTop(w, c);
      WriteTo(items[k], writer);
      assert items[k..][1..] == items[k + 1..];
      c := c.(items := c.items + [Canon(items[k])]);
    }
    assert c.items + CanonItems(items[|items|..]) == c.items;
    OpenTop(w, c);
    EndDelivers(w, c);
    writer.WriteArrayEnd();
  }

  method WriteObjectTo(ps: seq<Property>, writer: JSValueTreeWriter)
    requires writer.containerStack != []
    modifies writer
    ensures writer.containerStack != [] && writer.State() == Put(old(writer.State()), Object(CanonProps(ps, [])))
    decreases ps, 0
  {
    ghost var w := writer.State();
    ghost var c := NewContainer(ObjectContainer);
    writer.WriteObjectBegin();
    for k := 0 to |ps|
      invariant writer.State() == w.(stack := w.stack + [c])
      invariant c.kind == ObjectContainer && CanonProps(ps[k..], c.props) == CanonProps(ps, [])
    {
      OpenTop(w, c);
      writer.WritePropertyName(ps[k].name);
      c := c.(name := ps[k].name);
      OpenTop(w, c);
      WriteTo(ps[k].value, writer);
      assert ps[k..][1..] == ps[k + 1..];
      c := c.(props := TryEmplace(c.props, ps[k].name, Canon(ps[k].value)), name := []);
    }
    OpenTop(w, c);
    EndDelivers(w, c);
    writer.WriteObjectEnd();
  }
}
