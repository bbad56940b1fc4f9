/** Typed reads and ReadArgs: what they return, and exactly when they leave the reader behind the value. */
module ArgReaders {
  import opened JSValues
  import opened JsonTokens
  import opened Cursors
  import opened ReadFroms

  // Integer types narrower than, or not signed like, int64_t; an enumeration is read as S32.
  datatype Width = S8 | S16 | S32 | U8 | U16 | U32 | U64

  // The C++ types a ReadValue overload exists for. JSValueArray and JSValueObject read as a vector and a map of JSValue.
  datatype Shape =
    | TextShape
    | BoolShape
    | IntShape
    | NarrowShape(width: Width)
    | DoubleShape
    | FloatShape
    | OptionalShape(of: Shape)
    | VectorShape(of: Shape)
    | MapShape(of: Shape)
    | TupleShape(parts: seq<Shape>)
    | StructShape(fields: seq<Field>)
    | ValueShape
  {
    predicate IsScalar() {
      TextShape? || BoolShape? || IntShape? || NarrowShape? || DoubleShape? || FloatShape?
    }
  }

  datatype Field = Field(name: Text, shape: Shape)

  datatype Arg =
    | TextArg(text: Text)
    | BoolArg(b: bool)
    | IntArg(i: int)
    | DoubleArg(d: Double)
    | OptionalArg(some: Option<Arg>)
    | VectorArg(items: seq<Arg>)
    | MapArg(entries: map<Text, Arg>)
    | TupleArg(parts: seq<Arg>)
    | StructArg(values: map<Text, Arg>)
    | ValueArg(value: JSValue)
  {
    // What a read that adds to its output finds in it.

    function Items(): seq<Arg> {
      if VectorArg? then items else []
    }

    function Entries(): map<Text, Arg> {
      if MapArg? then entries else map[]
    }

    function Values(): map<Text, Arg> {
      if StructArg? then values else map[]
    }
  }

  // Runtime conversions between numbers and from numbers to text.
  datatype Conversions = Conversions(
    rt: Runtime, show: Double -> Text, truncate: Double -> I64, round: I64 -> Double, toFloat: Double -> Double)

  /** A value-initialized argument. */
  function Default(shape: Shape): Arg
    decreases shape, 1
  {
    match shape
    case TextShape => TextArg([])
    case BoolShape => BoolArg(false)
    case IntShape => IntArg(0)
    case NarrowShape(_) => IntArg(0)
    case DoubleShape => DoubleArg(Finite(0.0))
    case FloatShape => DoubleArg(Finite(0.0))
    case OptionalShape(_) => OptionalArg(None)
    case VectorShape(_) => VectorArg([])
    case MapShape(_) => MapArg(map[])
    case TupleShape(parts) => TupleArg(Defaults(parts))
    case StructShape(_) => StructArg(map[])
    case ValueShape => ValueArg(Null)
  }

  function Defaults(parts: seq<Shape>): (args: seq<Arg>)
    ensures |args| == |parts|
    decreases parts, 0
  {
    if parts == [] then [] else [Default(parts[0])] + Defaults(parts[1..])
  }

  function OrElse<T>(x: Option<T>, y: T): T {
    if x.Some? then x.value else y
  }

  /** static_cast between integer types: the low bits, read as signed or unsigned. */
  function Wrap(w: Width, i: int): int {
    match w
    case S8 => (i + 0x80) % 0x100 - 0x80
    case S16 => (i + 0x8000) % 0x1_0000 - 0x8000
    case S32 => (i + 0x8000_0000) % 0x1_0000_0000 - 0x8000_0000
    case U8 => i % 0x100
    case U16 => i % 0x1_0000
    case U32 => i % 0x1_0000_0000
    case U64 => i % 0x1_0000_0000_0000_0000
  }

  function ToText(k: Conversions, v: JSValue): Text {
    match v
    case String(s) => s
    case Boolean(b) => if b then TRUE_TEXT else FALSE_TEXT
    case Int64(i) => Decimal(i)
    case Number(d) => k.show(d)
    case _ => []
  }

  function ToBool(v: JSValue): bool {
    match v
    case String(s) => s != []
    case Boolean(b) => b
    case Int64(i) => i != 0
    case Number(d) => !DoubleEq(d, Finite(0.0))
    case _ => false
  }

  function ToInt64(k: Conversions, v: JSValue): I64 {
    match v
    case String(s) => OrElse(k.rt.wcstoi64(s), 0)
    case Boolean(b) => if b then 1 else 0
    case Int64(i) => i
    case Number(d) => k.truncate(d)
    case _ => 0
  }

  function ToDouble(k: Conversions, v: JSValue): Double {
    match v
    case String(s) => OrElse(k.rt.wcstod(s), Finite(0.0))
    case Boolean(b) => Finite(if b then 1.0 else 0.0)
    case Int64(i) => k.round(i)
    case Number(d) => d
    case _ => Finite(0.0)
  }

  /** Scalar types convert every scalar; null and containers give the default. */
  function ConvertScalar(k: Conversions, shape: Shape, v: JSValue): Arg
    requires shape.IsScalar()
  {
    match shape
    case TextShape => TextArg(ToText(k, v))
    case BoolShape => BoolArg(ToBool(v))
    case IntShape => IntArg(ToInt64(k, v))
    case NarrowShape(w) => IntArg(Wrap(w, ToInt64(k, v)))
    case DoubleShape => DoubleArg(ToDouble(k, v))
    case FloatShape => DoubleArg(k.toFloat(ToDouble(k, v)))
  }

  // Struct fields.

  predicate Known(fields: seq<Field>, name: Text) {
    exists i :: 0 <= i < |fields| && fields[i].name == name
  }

  /** The type a property is read as; one that is no field is read as a JSValue and dropped. */
  function FieldShape(fields: seq<Field>, name: Text): Shape {
    if fields == [] then ValueShape
    else if fields[0].name == name then fields[0].shape
    else FieldShape(fields[1..], name)
  }

  /** What the field holds before it is read. */
  function FieldValue(values: map<Text, Arg>, name: Text, shape: Shape): Arg {
    if name in values then values[name] else Default(shape)
  }

  function Store(fields: seq<Field>, values: map<Text, Arg>, name: Text, a: Arg): map<Text, Arg> {
    if Known(fields, name) then values[name := a] else values
  }

  // ---------- how far a read can go back ----------

  /** The depth below which a loop over the children of the current container cannot take the reader. */
  function Floor(t: TreeCursor): int {
    |t.stack| - if t.inContainer then 1 else 0
  }

  predicate Placed(c: Cursor) {
    c.Tree? ==> Fresh(c.tree)
  }

  /** A typed read never leaves the container it started in. */
  predicate StaysInside(c: Cursor, d: Cursor) {
    match c
    case Tree(t) => d.Tree? && |d.tree.stack| >= |t.stack| && (t.stack != [] ==> Remaining(d.tree) <= Remaining(t))
    case Json(_, j) => Measure(d) <= Measure(c)
  }

  /** A loop over children ends no higher than the container. */
  predicate StaysAbove(c: Cursor, d: Cursor) {
    match c
    case Tree(t) => d.Tree? && |d.tree.stack| >= Floor(t) && (Floor(t) >= 1 ==> Remaining(d.tree) <= Remaining(t))
    case Json(_, j) => Measure(d) <= Measure(c)
  }

  lemma LeaveShrinks(t: TreeCursor)
    requires |t.stack| >= 2
    ensures Remaining(Leave(t)) <= Remaining(t)
  {
    hide Later, Size;
  }

  lemma NextStays(c: Cursor)
    requires Valid(c)
    ensures !NextItem(c).1 ==> StaysAbove(c, NextItem(c).0)
    ensures NextProperty(c).1 == None ==> StaysAbove(c, NextProperty(c).0)
  {
    NextFacts(c);
    if c.Tree? {
      hide Remaining, Fresh, JsonNextItem, JsonNextProperty;
      var t := c.tree;
      if |t.stack| >= 2 {
        LeaveShrinks(t);
      }
      EmptyShrinks(t);
    } else {
      hide JsonNextItem, JsonNextProperty, Valid, Ready;
    }
  }

  lemma EmptyShrinks(t: TreeCursor)
    ensures Remaining(t.(inContainer := t.stack != [])) <= Remaining(t) || t.stack == []
    ensures t.stack == [] && !t.inContainer ==> t.(inContainer := t.stack != []) == t
  {
  }

  /** A child just found is one level inside. */
  lemma NextDepth(c: Cursor)
    requires Valid(c)
    ensures NextItem(c).1 && c.Tree? ==> |NextItem(c).0.tree.stack| == Floor(c.tree) + 1
    ensures NextProperty(c).1.Some? && c.Tree? ==> |NextProperty(c).0.tree.stack| == Floor(c.tree) + 1
  {
    hide JsonNextItem, JsonNextProperty, Ready;
  }

  lemma Continues(c: Cursor, d: Cursor, e: Cursor)
    requires Valid(c) && Valid(e) && SameReader(c, d) && SameReader(d, e) && Measure(d) < Measure(c) && StaysInside(d, e)
    requires c.Tree? ==> |d.tree.stack| == Floor(c.tree) + 1
    ensures Measure(e) < Measure(c)
    ensures c.Tree? ==> Floor(e.tree) >= Floor(c.tree)
    ensures forall f :: StaysAbove(e, f) ==> StaysAbove(c, f)
  {
    hide Remaining, Ready;
  }

  lemma EndStays(c: Cursor)
    requires Valid(c)
    ensures c.Tree? ==> StaysAbove(c, Tree(EndOfItems(c.tree))) && StaysAbove(c, Tree(EndOfProps(c.tree)))
  {
    if c.Tree? {
      hide Remaining;
      var t := c.tree;
      if |t.stack| >= 2 {
        LeaveShrinks(t);
      }
      EmptyShrinks(t);
    }
  }

  lemma ValueStays(c: Cursor)
    requires Valid(c)
    ensures StaysAbove(c, ReadValue(c).1)
  {
    EndStays(c);
    hide Remaining, EndOfItems, EndOfProps, Fresh;
  }

  // A loop over children that starts on a freshly entered value stays inside it.
  lemma AboveIsInside(c: Cursor, d: Cursor)
    requires Placed(c) && StaysAbove(c, d) && SameReader(c, d) && (ValueType(c) == ArrayType || ValueType(c) == ObjectType)
    ensures StaysInside(c, d)
  {
    hide Remaining;
  }

  lemma StaysPut(c: Cursor)
    requires Valid(c)
    ensures StaysAbove(c, c) && StaysInside(c, c)
  {
    hide Remaining;
  }

  lemma ValueInside(c: Cursor)
    requires Valid(c) && Placed(c)
    ensures StaysInside(c, ReadValue(c).1)
  {
    if c.Tree? {
      PastShrinks(c, Tree(Past(c.tree)));
    }
    hide ReadValue;
  }

  // ---------- reading ----------

  /** ReadValue into an output variable: vectors, maps and structs add to what is there, all other types replace it. */
  function ReadInto(k: Conversions, shape: Shape, out: Arg, c: Cursor): (r: (Arg, Cursor))
    requires Valid(c)
    ensures Valid(r.1) && SameReader(c, r.1) && StaysAbove(c, r.1) && (Placed(c) ==> StaysInside(c, r.1))
    decreases Measure(c), shape, 1
  {
    StaysPut(c);
    match shape
    case OptionalShape(of) =>
      if ValueType(c) == NullType then (OptionalArg(None), c)
      else var (a, d) := ReadInto(k, of, Default(of), c); (OptionalArg(Some(a)), d)
    case VectorShape(of) =>
      if ValueType(c) != ArrayType then (VectorArg(out.Items()), c)
      else
        var (args, d) := ReadVector(k, of, c, out.Items());
        assert Placed(c) ==> StaysInside(c, d) by { if Placed(c) { AboveIsInside(c, d); } }
        (VectorArg(args), d)
    case MapShape(of) =>
      if ValueType(c) != ObjectType then (MapArg(out.Entries()), c)
      else
        var (entries, d) := ReadMap(k, of, c, out.Entries());
        assert Placed(c) ==> StaysInside(c, d) by { if Placed(c) { AboveIsInside(c, d); } }
        (MapArg(entries), d)
    case TupleShape(parts) =>
      var (args, d) := ReadArgs(k, parts, c); (TupleArg(args), d)
    case StructShape(fields) =>
      if ValueType(c) != ObjectType then (StructArg(out.Values()), c)
      else
        var (values, d) := ReadFields(k, fields, c, out.Values());
        assert Placed(c) ==> StaysInside(c, d) by { if Placed(c) { AboveIsInside(c, d); } }
        (StructArg(values), d)
    case ValueShape =>
      ValueStays(c);
      assert Placed(c) ==> StaysInside(c, ReadValue(c).1) by { if Placed(c) { ValueInside(c); } }
      var (v, d) := ReadValue(c); (ValueArg(v), d)
    case _ => (ConvertScalar(k, shape, Scalar(c)), c)
  }

  function ReadVector(k: Conversions, of: Shape, c: Cursor, acc: seq<Arg>): (r: (seq<Arg>, Cursor))
    requires Valid(c)
    ensures Valid(r.1) && SameReader(c, r.1) && StaysAbove(c, r.1)
    decreases Measure(c), of, 0
  {
    NextFacts(c);
    NextStays(c);
    NextDepth(c);
    var (d, found) := NextItem(c);
    if !found then (acc, d)
    else
      var (a, e) := ReadInto(k, of, Default(of), d);
      Continues(c, d, e);
      ReadVector(k, of, e, acc + [a])
  }

  /** std::map::emplace keeps the first value of a repeated name. */
  function ReadMap(k: Conversions, of: Shape, c: Cursor, acc: map<Text, Arg>): (r: (map<Text, Arg>, Cursor))
    requires Valid(c)
    ensures Valid(r.1) && SameReader(c, r.1) && StaysAbove(c, r.1)
    decreases Measure(c), of, 0
  {
    NextFacts(c);
    NextStays(c);
    NextDepth(c);
    var (d, name) := NextProperty(c);
    if name == None then (acc, d)
    else
      var (a, e) := ReadInto(k, of, Default(of), d);
      Continues(c, d, e);
      ReadMap(k, of, e, Emplace(acc, name.value, a))
  }

  function Emplace(m: map<Text, Arg>, name: Text, a: Arg): map<Text, Arg> {
    if name in m then m else m[name := a]
  }

  /** A repeated name reads its field again, into what the first read left there. */
  function ReadFields(k: Conversions, fields: seq<Field>, c: Cursor, acc: map<Text, Arg>): (r: (map<Text, Arg>, Cursor))
    requires Valid(c)
    ensures Valid(r.1) && SameReader(c, r.1) && StaysAbove(c, r.1)
    decreases Measure(c), fields, 0
  {
    NextFacts(c);
    NextStays(c);
    NextDepth(c);
    var (d, name) := NextProperty(c);
    if name == None then (acc, d)
    else
      var shape := FieldShape(fields, name.value);
      var (a, e) := ReadInto(k, shape, FieldValue(acc, name.value, shape), d);
      Continues(c, d, e);
      ReadFields(k, fields, e, Store(fields, acc, name.value, a))
  }

  /** ReadArgs; std::tuple is read the same way. */
  function ReadArgs(k: Conversions, parts: seq<Shape>, c: Cursor): (r: (seq<Arg>, Cursor))
    requires Valid(c)
    ensures Valid(r.1) && SameReader(c, r.1) && StaysAbove(c, r.1) && (Placed(c) ==> StaysInside(c, r.1)) && |r.0| == |parts|
    decreases Measure(c), parts, 1
  {
    StaysPut(c);
    if ValueType(c) != ArrayType then (Defaults(parts), c)
    else
      var r := ReadParts(k, parts, c);
      assert Placed(c) ==> StaysInside(c, r.1) by { if Placed(c) { AboveIsInside(c, r.1); } }
      r
  }

  /** The arguments from the current one on; the items that are left are skipped. */
  function ReadParts(k: Conversions, parts: seq<Shape>, c: Cursor): (r: (seq<Arg>, Cursor))
    requires Valid(c)
    ensures Valid(r.1) && SameReader(c, r.1) && StaysAbove(c, r.1) && |r.0| == |parts|
    decreases Measure(c), parts, 0
  {
    NextFacts(c);
    NextStays(c);
    NextDepth(c);
    if parts == [] then ([], SkipToEnd(c))
    else
      var (d, found) := NextItem(c);
      if !found then (Defaults(parts), d)
      else
        var (a, e) := ReadInto(k, parts[0], Default(parts[0]), d);
        Continues(c, d, e);
        var (rest, f) := ReadParts(k, parts[1..], e);
        ([a] + rest, f)
  }

  /** SkipArrayToEnd reads and drops what is left. */
  function SkipToEnd(c: Cursor): (d: Cursor)
    requires Valid(c)
    ensures Valid(d) && SameReader(c, d) && StaysAbove(c, d)
  {
    EndStays(c);
    ReadItems(c, []).1
  }

  // ---------- what is read ----------

  /** The argument a value stands for, read into an output. */
  function Convert(k: Conversions, shape: Shape, out: Arg, v: JSValue): Arg
    decreases v, shape, 1
  {
    match shape
    case OptionalShape(of) => OptionalArg(if v.Null? then None else Some(Convert(k, of, Default(of), v)))
    case VectorShape(of) => VectorArg(if v.Array? then out.Items() + ConvertItems(k, of, v.items) else out.Items())
    case MapShape(of) => MapArg(if v.Object? then ConvertProps(k, of, v.props, out.Entries()) else out.Entries())
    case TupleShape(parts) => TupleArg(if v.Array? then ConvertParts(k, parts, v.items) else Defaults(parts))
    case StructShape(fields) => StructArg(if v.Object? then ConvertFields(k, fields, v.props, out.Values()) else out.Values())
    case ValueShape => ValueArg(Canon(v))
    case _ => ConvertScalar(k, shape, v)
  }

  function ConvertItems(k: Conversions, of: Shape, items: seq<JSValue>): seq<Arg>
    decreases items, of, 0
  {
    if items == [] then [] else [Convert(k, of, Default(of), items[0])] + ConvertItems(k, of, items[1..])
  }

  function ConvertProps(k: Conversions, of: Shape, ps: seq<Property>, acc: map<Text, Arg>): map<Text, Arg>
    decreases ps, of, 0
  {
    if ps == [] then acc
    else ConvertProps(k, of, ps[1..], Emplace(acc, ps[0].name, Convert(k, of, Default(of), ps[0].value)))
  }

  function ConvertFields(k: Conversions, fields: seq<Field>, ps: seq<Property>, acc: map<Text, Arg>): map<Text, Arg>
    decreases ps, fields, 0
  {
    if ps == [] then acc
    else
      var name, shape := ps[0].name, FieldShape(fields, ps[0].name);
      ConvertFields(k, fields, ps[1..],
                    Store(fields, acc, name, Convert(k, shape, FieldValue(acc, name, shape), ps[0].value)))
  }

  /** Items that exist, converted in order, then defaults; further items are ignored. */
  function ConvertParts(k: Conversions, parts: seq<Shape>, items: seq<JSValue>): (args: seq<Arg>)
    ensures |args| == |parts|
    decreases items, parts, 0
  {
    if parts == [] then []
    else if items == [] then Defaults(parts)
    else [Convert(k, parts[0], Default(parts[0]), items[0])] + ConvertParts(k, parts[1..], items[1..])
  }

  /** Reading the value as this type uses all of it: a scalar type, or the wrong container type, does not enter a container. */
  predicate Consumes(shape: Shape, v: JSValue)
    decreases v, shape
  {
    match shape
    case OptionalShape(of) => v.Null? || Consumes(of, v)
    case VectorShape(of) =>
      (match v
       case Array(items) => forall i :: 0 <= i < |items| ==> Consumes(of, items[i])
       case Object(_) => false
       case _ => true)
    case MapShape(of) =>
      (match v
       case Object(ps) => forall i :: 0 <= i < |ps| ==> Consumes(of, ps[i].value)
       case Array(_) => false
       case _ => true)
    case TupleShape(parts) =>
      (match v
       case Array(items) => forall i :: 0 <= i < |parts| && i < |items| ==> Consumes(parts[i], items[i])
       case Object(_) => false
       case _ => true)
    case StructShape(fields) =>
      (match v
       case Object(ps) => forall i :: 0 <= i < |ps| ==> Consumes(FieldShape(fields, ps[i].name), ps[i].value)
       case Array(_) => false
       case _ => true)
    case ValueShape => true
    case _ => !v.IsContainer()
  }

  predicate ConsumesItems(of: Shape, items: seq<JSValue>) {
    forall i :: 0 <= i < |items| ==> Consumes(of, items[i])
  }

  predicate ConsumesProps(of: Shape, ps: seq<Property>) {
    forall i :: 0 <= i < |ps| ==> Consumes(of, ps[i].value)
  }

  predicate ConsumesFields(fields: seq<Field>, ps: seq<Property>) {
    forall i :: 0 <= i < |ps| ==> Consumes(FieldShape(fields, ps[i].name), ps[i].value)
  }

  predicate ConsumesParts(parts: seq<Shape>, items: seq<JSValue>) {
    forall i :: 0 <= i < |parts| && i < |items| ==> Consumes(parts[i], items[i])
  }

  /** The reader is still in front of, or inside, the value it stood on. */
  predicate Lags(t: TreeCursor, u: TreeCursor) {
    |u.stack| > |t.stack| || (u == t && t.current.IsContainer())
  }

  /** A typed read returns the converted value and ends behind it, or is left in front of it or inside it. */
  ghost predicate ReadsAs(k: Conversions, shape: Shape, out: Arg, t: TreeCursor)
    requires TreeInv(t) && Fresh(t)
  {
    var r := ReadInto(k, shape, out, Tree(t));
    if Consumes(shape, t.current) then r == (Convert(k, shape, out, t.current), Tree(Past(t))) else Lags(t, r.1.tree)
  }

  lemma {:induction false} TypedRead(k: Conversions, shape: Shape, out: Arg, t: TreeCursor)
    requires TreeInv(t) && Fresh(t)
    ensures ReadsAs(k, shape, out, t)
    decreases Remaining(t), shape, 1
  {
    hide Remaining, TreeInv, ReadInto, Convert, Consumes, ReadVector, ReadMap, ReadParts, ReadFields, ConvertItems, ConvertProps,
         ConvertParts, ConvertFields, Defaults, StaysAbove, StaysInside, ConsumesItems, ConsumesProps, ConsumesFields, ConsumesParts;
    if !t.current.IsContainer() {
      ScalarPast(t);
    }
    match shape
    case OptionalShape(of) =>
      OptionalUnfold(k, of, out, t);
      TypedRead(k, of, Default(of), t);
    case VectorShape(of) =>
      VectorUnfold(k, of, out, t);
      if t.current.Array? {
        VectorRead(k, of, t, out.Items());
      }
    case MapShape(of) =>
      MapUnfold(k, of, out, t);
      if t.current.Object? {
        MapRead(k, of, t, out.Entries());
      }
    case TupleShape(parts) =>
      if t.current.Array? {
        PartsRead(k, parts, t);
        TupleOfArray(k, parts, out, t);
      } else {
        TupleElsewhere(k, parts, out, t);
      }
    case StructShape(fields) =>
      StructUnfold(k, fields, out, t);
      if t.current.Object? {
        FieldsRead(k, fields, t, out.Values());
      }
    case ValueShape =>
      FrameRule(t);
      ValueUnfold(k, out, t);
    case _ =>
      ScalarUnfold(k, shape, out, t);
  }

  lemma OptionalUnfold(k: Conversions, of: Shape, out: Arg, t: TreeCursor)
    requires TreeInv(t) && Fresh(t)
    ensures Consumes(OptionalShape(of), t.current) == (t.current.Null? || Consumes(of, t.current))
    ensures var (a, d) := ReadInto(k, of, Default(of), Tree(t));
            if t.current.Null? then
              ReadInto(k, OptionalShape(of), out, Tree(t)) == (Convert(k, OptionalShape(of), out, t.current), Tree(t))
            else
              && ReadInto(k, OptionalShape(of), out, Tree(t)) == (OptionalArg(Some(a)), d)
              && Convert(k, OptionalShape(of), out, t.current) == OptionalArg(Some(Convert(k, of, Default(of), t.current)))
  {
    hide TreeInv, StaysAbove, StaysInside, Default;
  }

  lemma ValueUnfold(k: Conversions, out: Arg, t: TreeCursor)
    requires TreeInv(t) && Fresh(t)
    ensures var (v, d) := ReadValue(Tree(t)); ReadInto(k, ValueShape, out, Tree(t)) == (ValueArg(v), d)
    ensures Consumes(ValueShape, t.current) && Convert(k, ValueShape, out, t.current) == ValueArg(Canon(t.current))
  {
    hide TreeInv, StaysAbove, StaysInside, ReadValue, Canon;
  }

  lemma ScalarUnfold(k: Conversions, shape: Shape, out: Arg, t: TreeCursor)
    requires TreeInv(t) && Fresh(t) && shape.IsScalar()
    ensures ReadInto(k, shape, out, Tree(t)).1 == Tree(t) && Consumes(shape, t.current) == !t.current.IsContainer()
    ensures !t.current.IsContainer() ==> ReadInto(k, shape, out, Tree(t)).0 == Convert(k, shape, out, t.current)
  {
    hide TreeInv, StaysAbove, StaysInside, ConvertScalar;
  }

  lemma VectorUnfold(k: Conversions, of: Shape, out: Arg, t: TreeCursor)
    requires TreeInv(t) && Fresh(t)
    ensures t.current.Array? ==>
              var (r, d) := ReadVector(k, of, Tree(t), out.Items());
              && ReadInto(k, VectorShape(of), out, Tree(t)) == (VectorArg(r), d)
              && Consumes(VectorShape(of), t.current) == ConsumesItems(of, t.current.items)
              && Convert(k, VectorShape(of), out, t.current) == VectorArg(out.Items() + ConvertItems(k, of, t.current.items))
              && ItemsAhead(t) == t.current.items && EndOfItems(t) == Past(t) && Floor(t) == |t.stack|
    ensures !t.current.Array? ==>
              && ReadInto(k, VectorShape(of), out, Tree(t)) == (VectorArg(out.Items()), Tree(t))
              && Consumes(VectorShape(of), t.current) == !t.current.IsContainer()
              && Convert(k, VectorShape(of), out, t.current) == VectorArg(out.Items())
  {
    hide TreeInv, ReadVector, ReadMap, ReadFields, ReadParts, ConvertItems, ConvertProps, ConvertFields, ConvertParts, Remaining;
  }

  lemma MapUnfold(k: Conversions, of: Shape, out: Arg, t: TreeCursor)
    requires TreeInv(t) && Fresh(t)
    ensures t.current.Object? ==>
              var (r, d) := ReadMap(k, of, Tree(t), out.Entries());
              && ReadInto(k, MapShape(of), out, Tree(t)) == (MapArg(r), d)
              && Consumes(MapShape(of), t.current) == ConsumesProps(of, t.current.props)
              && Convert(k, MapShape(of), out, t.current) == MapArg(ConvertProps(k, of, t.current.props, out.Entries()))
              && PropsAhead(t) == t.current.props && EndOfProps(t) == Past(t) && Floor(t) == |t.stack|
    ensures !t.current.Object? ==>
              && ReadInto(k, MapShape(of), out, Tree(t)) == (MapArg(out.Entries()), Tree(t))
              && Consumes(MapShape(of), t.current) == !t.current.IsContainer()
              && Convert(k, MapShape(of), out, t.current) == MapArg(out.Entries())
  {
    hide TreeInv, ReadVector, ReadMap, ReadFields, ReadParts, ConvertItems, ConvertProps, ConvertFields, ConvertParts, Remaining;
  }

  lemma StructUnfold(k: Conversions, fields: seq<Field>, out: Arg, t: TreeCursor)
    requires TreeInv(t) && Fresh(t)
    ensures t.current.Object? ==>
              var (r, d) := ReadFields(k, fields, Tree(t), out.Values());
              && ReadInto(k, StructShape(fields), out, Tree(t)) == (StructArg(r), d)
              && Consumes(StructShape(fields), t.current) == ConsumesFields(fields, t.current.props)
              && Convert(k, StructShape(fields), out, t.current) == StructArg(ConvertFields(k, fields, t.current.props, out.Values()))
              && PropsAhead(t) == t.current.props && EndOfProps(t) == Past(t) && Floor(t) == |t.stack|
    ensures !t.current.Object? ==>
              && ReadInto(k, StructShape(fields), out, Tree(t)) == (StructArg(out.Values()), Tree(t))
              && Consumes(StructShape(fields), t.current) == !t.current.IsContainer()
              && Convert(k, StructShape(fields), out, t.current) == StructArg(out.Values())
  {
    hide TreeInv, ReadVector, ReadMap, ReadFields, ReadParts, ConvertItems, ConvertProps, ConvertFields, ConvertParts, Remaining;
  }

  lemma TupleOfArray(k: Conversions, parts: seq<Shape>, out: Arg, t: TreeCursor)
    requires TreeInv(t) && Fresh(t) && t.current.Array?
    ensures var (args, d) := ReadParts(k, parts, Tree(t)); ReadInto(k, TupleShape(parts), out, Tree(t)) == (TupleArg(args), d)
    ensures Consumes(TupleShape(parts), t.current) == ConsumesParts(parts, t.current.items)
    ensures Convert(k, TupleShape(parts), out, t.current) == TupleArg(ConvertParts(k, parts, t.current.items))
    ensures ItemsAhead(t) == t.current.items && EndOfItems(t) == Past(t) && Floor(t) == |t.stack|
  {
    hide TreeInv, ReadParts, ConvertParts, Defaults;
  }

  lemma TupleElsewhere(k: Conversions, parts: seq<Shape>, out: Arg, t: TreeCursor)
    requires TreeInv(t) && Fresh(t) && !t.current.Array?
    ensures ReadInto(k, TupleShape(parts), out, Tree(t)) == (TupleArg(Defaults(parts)), Tree(t))
    ensures Consumes(TupleShape(parts), t.current) == !t.current.Object?
    ensures Convert(k, TupleShape(parts), out, t.current) == TupleArg(Defaults(parts))
  {
    hide TreeInv, ReadParts, ConvertParts, Defaults;
  }

  lemma ScalarPast(t: TreeCursor)
    requires TreeInv(t) && Fresh(t) && !t.current.IsContainer()
    ensures Past(t) == t
  {
  }

  lemma ItemsOneByOne(k: Conversions, of: Shape, items: seq<JSValue>, acc: seq<Arg>)
    requires items != []
    ensures ConsumesItems(of, items) <==> Consumes(of, items[0]) && ConsumesItems(of, items[1..])
    ensures acc + ConvertItems(k, of, items) == acc + [Convert(k, of, Default(of), items[0])] + ConvertItems(k, of, items[1..])
  {
    hide Consumes, Convert;
    if ConsumesItems(of, items[1..]) && Consumes(of, items[0]) {
      forall i | 0 <= i < |items| ensures Consumes(of, items[i]) {
        assert i > 0 ==> items[i] == items[1..][i - 1];
      }
    }
  }

  lemma PropsOneByOne(of: Shape, ps: seq<Property>)
    requires ps != []
    ensures ConsumesProps(of, ps) <==> Consumes(of, ps[0].value) && ConsumesProps(of, ps[1..])
  {
    hide Consumes;
    if ConsumesProps(of, ps[1..]) && Consumes(of, ps[0].value) {
      forall i | 0 <= i < |ps| ensures Consumes(of, ps[i].value) {
        assert i > 0 ==> ps[i] == ps[1..][i - 1];
      }
    }
  }

  lemma FieldsOneByOne(fields: seq<Field>, ps: seq<Property>)
    requires ps != []
    ensures ConsumesFields(fields, ps)
       <==> Consumes(FieldShape(fields, ps[0].name), ps[0].value) && ConsumesFields(fields, ps[1..])
  {
    hide Consumes, FieldShape;
    if ConsumesFields(fields, ps[1..]) && Consumes(FieldShape(fields, ps[0].name), ps[0].value) {
      forall i | 0 <= i < |ps| ensures Consumes(FieldShape(fields, ps[i].name), ps[i].value) {
        assert i > 0 ==> ps[i] == ps[1..][i - 1];
      }
    }
  }

  lemma PartsOneByOne(parts: seq<Shape>, items: seq<JSValue>)
    requires parts != [] && items != []
    ensures ConsumesParts(parts, items) <==> Consumes(parts[0], items[0]) && ConsumesParts(parts[1..], items[1..])
  {
    hide Consumes;
    if ConsumesParts(parts[1..], items[1..]) && Consumes(parts[0], items[0]) {
      forall i | 0 <= i < |parts| && i < |items| ensures Consumes(parts[i], items[i]) {
        assert i > 0 ==> items[i] == items[1..][i - 1] && parts[i] == parts[1..][i - 1];
      }
    }
  }

  // The child a loop goes to, and where a typed read of it leaves the reader.
  ghost predicate Visits(k: Conversions, of: Shape, out: Arg, t: TreeCursor, d: TreeCursor, a: Arg, e: Cursor) {
    && TreeInv(d) && Fresh(d) && ReadInto(k, of, out, Tree(d)) == (a, e) && Valid(e) && e.Tree? && Remaining(e.tree) < Remaining(t)
    && (if Consumes(of, d.current) then a == Convert(k, of, out, d.current) && e == Tree(Past(d)) else Floor(e.tree) > Floor(t))
  }

  lemma VisitFacts(k: Conversions, of: Shape, out: Arg, t: TreeCursor, d: TreeCursor)
    requires TreeInv(t) && TreeInv(d) && Fresh(d) && ReadsAs(k, of, out, d)
    requires Remaining(d) < Remaining(t) && |d.stack| == Floor(t) + 1
    ensures var (a, e) := ReadInto(k, of, out, Tree(d)); Visits(k, of, out, t, d, a, e)
  {
    hide Remaining, TreeInv, Consumes, Convert;
    var (a, e) := ReadInto(k, of, out, Tree(d));
    hide ReadInto;
    Continues(Tree(t), Tree(d), e);
    assert Floor(e.tree) >= |e.tree.stack| - 1;
  }

  lemma VectorStep(k: Conversions, of: Shape, t: TreeCursor, acc: seq<Arg>, d: TreeCursor, a: Arg, e: Cursor)
    requires TreeInv(t) && TreeNextItem(t) == (d, true) && Visits(k, of, Default(of), t, d, a, e)
    ensures ReadVector(k, of, Tree(t), acc) == ReadVector(k, of, e, acc + [a])
  {
    hide ReadInto, TreeInv, Remaining, Consumes, Convert, TreeNextItem, Fresh;
  }

  lemma MapStep(k: Conversions, of: Shape, t: TreeCursor, acc: map<Text, Arg>, d: TreeCursor, name: Text, a: Arg, e: Cursor)
    requires TreeInv(t) && TreeNextProperty(t) == (d, Some(name)) && Visits(k, of, Default(of), t, d, a, e)
    ensures ReadMap(k, of, Tree(t), acc) == ReadMap(k, of, e, Emplace(acc, name, a))
  {
    hide ReadInto, TreeInv, Remaining, Consumes, Convert, TreeNextProperty, Fresh, Emplace;
  }

  lemma FieldsStep(k: Conversions, fields: seq<Field>, t: TreeCursor, acc: map<Text, Arg>, d: TreeCursor, name: Text, a: Arg, e: Cursor)
    requires TreeInv(t) && TreeNextProperty(t) == (d, Some(name))
    requires var shape := FieldShape(fields, name); Visits(k, shape, FieldValue(acc, name, shape), t, d, a, e)
    ensures ReadFields(k, fields, Tree(t), acc) == ReadFields(k, fields, e, Store(fields, acc, name, a))
  {
    hide ReadInto, TreeInv, Remaining, Consumes, Convert, TreeNextProperty, Fresh, FieldShape, FieldValue, Store;
  }

  lemma {:induction false} VectorRead(k: Conversions, of: Shape, t: TreeCursor, acc: seq<Arg>)
    requires TreeInv(t)
    ensures var r := ReadVector(k, of, Tree(t), acc);
            if ConsumesItems(of, ItemsAhead(t)) then r == (acc + ConvertItems(k, of, ItemsAhead(t)), Tree(EndOfItems(t)))
            else |r.1.tree.stack| > Floor(t)
    decreases Remaining(t), of, 0
  {
    hide Remaining, TreeInv, Consumes, Convert, ItemsAhead, EndOfItems, TreeNextItem, ReadInto, Fresh, Default;
    NextFacts(Tree(t));
    NextDepth(Tree(t));
    ItemsAheadNext(t);
    EndOfItemsNext(Tree(t));
    var (d, found) := TreeNextItem(t);
    if found {
      TypedRead(k, of, Default(of), d);
      VisitFacts(k, of, Default(of), t, d);
      var (a, e) := ReadInto(k, of, Default(of), Tree(d));
      VectorStep(k, of, t, acc, d, a, e);
      hide ReadVector;
      VectorRead(k, of, e.tree, acc + [a]);
      ItemsOneByOne(k, of, ItemsAhead(t), acc);
      hide ConsumesItems, ConvertItems;
    } else {
      assert acc + ConvertItems(k, of, []) == acc;
    }
  }

  lemma {:induction false} MapRead(k: Conversions, of: Shape, t: TreeCursor, acc: map<Text, Arg>)
    requires TreeInv(t)
    ensures var r := ReadMap(k, of, Tree(t), acc);
            if ConsumesProps(of, PropsAhead(t)) then r == (ConvertProps(k, of, PropsAhead(t), acc), Tree(EndOfProps(t)))
            else |r.1.tree.stack| > Floor(t)
    decreases Remaining(t), of, 0
  {
    hide Remaining, TreeInv, Consumes, Convert, PropsAhead, EndOfProps, TreeNextProperty, ReadInto, Fresh, Emplace, Default;
    NextFacts(Tree(t));
    NextDepth(Tree(t));
    PropsAheadNext(t);
    EndOfPropsNext(Tree(t));
    var (d, name) := TreeNextProperty(t);
    if name.Some? {
      TypedRead(k, of, Default(of), d);
      VisitFacts(k, of, Default(of), t, d);
      var (a, e) := ReadInto(k, of, Default(of), Tree(d));
      MapStep(k, of, t, acc, d, name.value, a, e);
      hide ReadMap;
      MapRead(k, of, e.tree, Emplace(acc, name.value, a));
      PropsOneByOne(of, PropsAhead(t));
      hide ConsumesProps;
    }
  }

  lemma {:induction false} FieldsRead(k: Conversions, fields: seq<Field>, t: TreeCursor, acc: map<Text, Arg>)
    requires TreeInv(t)
    ensures var r := ReadFields(k, fields, Tree(t), acc);
            if ConsumesFields(fields, PropsAhead(t)) then r == (ConvertFields(k, fields, PropsAhead(t), acc), Tree(EndOfProps(t)))
            else |r.1.tree.stack| > Floor(t)
    decreases Remaining(t), fields, 0
  {
    hide Remaining, TreeInv, Consumes, Convert, PropsAhead, EndOfProps, TreeNextProperty, ReadInto, Fresh, FieldShape, FieldValue, Store;
    NextFacts(Tree(t));
    NextDepth(Tree(t));
    PropsAheadNext(t);
    EndOfPropsNext(Tree(t));
    var (d, name) := TreeNextProperty(t);
    if name.Some? {
      var shape := FieldShape(fields, name.value);
      var out := FieldValue(acc, name.value, shape);
      TypedRead(k, shape, out, d);
      VisitFacts(k, shape, out, t, d);
      var (a, e) := ReadInto(k, shape, out, Tree(d));
      FieldsStep(k, fields, t, acc, d, name.value, a, e);
      hide ReadFields;
      FieldsRead(k, fields, e.tree, Store(fields, acc, name.value, a));
      FieldsOneByOne(fields, PropsAhead(t));
      hide ConsumesFields;
    }
  }

  lemma PartsStep(k: Conversions, parts: seq<Shape>, t: TreeCursor, d: TreeCursor, a: Arg, e: Cursor)
    requires TreeInv(t) && parts != [] && TreeNextItem(t) == (d, true) && Visits(k, parts[0], Default(parts[0]), t, d, a, e)
    ensures var (rest, f) := ReadParts(k, parts[1..], e); ReadParts(k, parts, Tree(t)) == ([a] + rest, f)
  {
    hide ReadInto, TreeInv, Remaining, Consumes, Convert, TreeNextItem, Fresh, SkipToEnd, Default;
  }

  lemma PartsEnd(k: Conversions, parts: seq<Shape>, t: TreeCursor)
    requires TreeInv(t) && (parts == [] || !TreeNextItem(t).1)
    ensures ReadParts(k, parts, Tree(t)) == (Defaults(parts), Tree(EndOfItems(t)))
  {
    hide ReadInto, TreeInv, Remaining, Fresh;
    EndOfItemsNext(Tree(t));
    hide EndOfItems, TreeNextItem;
  }

  lemma {:induction false} PartsRead(k: Conversions, parts: seq<Shape>, t: TreeCursor)
    requires TreeInv(t)
    ensures var r := ReadParts(k, parts, Tree(t));
            if ConsumesParts(parts, ItemsAhead(t)) then r == (ConvertParts(k, parts, ItemsAhead(t)), Tree(EndOfItems(t)))
            else |r.1.tree.stack| > Floor(t)
    decreases Remaining(t), parts, 0
  {
    hide Remaining, TreeInv, Consumes, Convert, ItemsAhead, EndOfItems, TreeNextItem, ReadInto, Fresh, ReadParts, Default;
    NextFacts(Tree(t));
    NextDepth(Tree(t));
    ItemsAheadNext(t);
    EndOfItemsNext(Tree(t));
    var (d, found) := TreeNextItem(t);
    if parts != [] && found {
      var out := Default(parts[0]);
      TypedRead(k, parts[0], out, d);
      VisitFacts(k, parts[0], out, t, d);
      var (a, e) := ReadInto(k, parts[0], out, Tree(d));
      PartsStep(k, parts, t, d, a, e);
      PartsRead(k, parts[1..], e.tree);
      PartsOneByOne(parts, ItemsAhead(t));
      hide ConsumesParts;
    } else {
      PartsEnd(k, parts, t);
    }
  }

  /** A typed read of a child ends behind it if and only if the type consumes the child. */
  lemma TypedReadExactly(k: Conversions, shape: Shape, out: Arg, t: TreeCursor)
    requires TreeInv(t) && Fresh(t) && t.stack != []
    ensures var r := ReadInto(k, shape, out, Tree(t));
            && (r.1 == Tree(Past(t)) <==> Consumes(shape, t.current))
            && (Consumes(shape, t.current) ==> r.0 == Convert(k, shape, out, t.current))
  {
    TypedRead(k, shape, out, t);
    hide ReadInto, Consumes, Convert, TreeInv;
  }

  /** ReadArgs on an array: the first arguments are its items in order, the others are defaults, and the reader ends
      exactly where a full read of the array would leave it, if and only if every item is consumed by its type. */
  lemma ReadArgsExactly(k: Conversions, parts: seq<Shape>, t: TreeCursor)
    requires TreeInv(t) && Fresh(t) && t.current.Array?
    ensures var r := ReadArgs(k, parts, Tree(t));
            && (r.1 == ReadValue(Tree(t)).1 <==> ConsumesParts(parts, t.current.items))
            && (ConsumesParts(parts, t.current.items) ==> r.0 == ConvertParts(k, parts, t.current.items))
  {
    PartsRead(k, parts, t);
    hide ReadParts, ConvertParts, ConsumesParts, TreeInv, ReadValue;
  }

  /** Position by position: converted items, then defaults. */
  lemma {:induction false} ConvertPartsAt(k: Conversions, parts: seq<Shape>, items: seq<JSValue>, i: nat)
    requires i < |parts|
    ensures ConvertParts(k, parts, items)[i] == if i < |items| then Convert(k, parts[i], Default(parts[i]), items[i]) else Default(parts[i])
  {
    hide Convert, Default;
    if items == [] {
      DefaultsAt(parts, i);
    } else if i > 0 {
      ConvertPartsAt(k, parts[1..], items[1..], i - 1);
    }
  }

  lemma {:induction false} DefaultsAt(parts: seq<Shape>, i: nat)
    requires i < |parts|
    ensures Defaults(parts)[i] == Default(parts[i])
  {
    hide Default;
    if i > 0 {
      DefaultsAt(parts[1..], i - 1);
    }
  }

  /** A map holds, at each name, the first property of that name, converted. */
  lemma {:induction false} ConvertPropsAt(k: Conversions, of: Shape, ps: seq<Property>, acc: map<Text, Arg>, name: Text)
    ensures var m := ConvertProps(k, of, ps, acc);
            && (name in m <==> name in acc || Lookup(ps, name).Some?)
            && (name in m ==>
                  m[name] == if name in acc then acc[name] else Convert(k, of, Default(of), Lookup(ps, name).value))
  {
    hide Convert, Default;
    if ps != [] {
      ConvertPropsAt(k, of, ps[1..], Emplace(acc, ps[0].name, Convert(k, of, Default(of), ps[0].value)), name);
    }
  }

  /** A struct read from a map holds, in each field, the property of its name converted, or what was there. */
  lemma {:induction false} ConvertFieldsAt(k: Conversions, fields: seq<Field>, ps: seq<Property>, acc: map<Text, Arg>, name: Text)
    requires Sorted(ps) && Known(fields, name)
    ensures var shape := FieldShape(fields, name);
            FieldValue(ConvertFields(k, fields, ps, acc), name, shape)
            == match Lookup(ps, name)
               case Some(v) => Convert(k, shape, FieldValue(acc, name, shape), v)
               case None => FieldValue(acc, name, shape)
  {
    hide Convert, Default, Known, FieldShape, Less;
    if ps != [] {
      var shape := FieldShape(fields, ps[0].name);
      var a := Convert(k, shape, FieldValue(acc, ps[0].name, shape), ps[0].value);
      SortedTail(ps);
      TailLacksHead(ps);
      ConvertFieldsAt(k, fields, ps[1..], Store(fields, acc, ps[0].name, a), name);
    }
  }

  /** Arguments of type JSValue are always consumed, whatever the items are. */
  lemma ReadValueArgs(k: Conversions, n: nat, t: TreeCursor)
    requires TreeInv(t) && Fresh(t) && t.current.Array? && WellFormed(t.current)
    ensures var parts := seq(n, _ => ValueShape);
            var (args, d) := ReadArgs(k, parts, Tree(t));
            && d == Tree(Past(t)) && |args| == n
            && forall i :: 0 <= i < n ==> args[i] == ValueArg(if i < |t.current.items| then t.current.items[i] else Null)
  {
    var parts := seq(n, _ => ValueShape);
    var items := t.current.items;
    assert ConsumesParts(parts, items);
    ReadArgsExactly(k, parts, t);
    hide ReadArgs, TreeInv, ReadValue;
    forall i | 0 <= i < n
      ensures ConvertParts(k, parts, items)[i] == ValueArg(if i < |items| then items[i] else Null)
    {
      ConvertPartsAt(k, parts, items, i);
      if i < |items| {
        CanonOfWellFormed(items[i]);
      }
    }
  }

  /** A reader that is not on an array gives defaults and does not move. */
  lemma ReadArgsElsewhere(k: Conversions, parts: seq<Shape>, c: Cursor, i: nat)
    requires Valid(c) && ValueType(c) != ArrayType && i < |parts|
    ensures ReadArgs(k, parts, c).1 == c && ReadArgs(k, parts, c).0[i] == Default(parts[i])
  {
    DefaultsAt(parts, i);
  }

  /** One argument that is not consumed shifts the others: reading [[7], 8] as two integers gives 0 and 7. */
  lemma UnconsumedItemShiftsArgs(k: Conversions)
    ensures var c := Tree(OpenTree(Array([Array([Int64(7)]), Int64(8)])));
            Valid(c) && ReadArgs(k, [IntShape, IntShape], c).0 == [IntArg(0), IntArg(7)]
  {
    var inner := Array([Int64(7)]);
    var outer := Array([inner, Int64(8)]);
    var t := OpenTree(outer);
    var d := TreeCursor(outer, inner, false, [Entry(outer, 0)]);
    var e := TreeCursor(outer, Int64(7), true, [Entry(outer, 0), Entry(inner, 0)]);
    TreeNextKeepsInv(t);
    FirstItem(t, d, outer);
    TreeNextKeepsInv(d) by { hide TreeInv; }
    FirstItem(d, e, inner);
    hide TreeInv, TreeNextItem, Remaining, ReadParts;
    ShiftedParts(k, t, d, e);
  }

  lemma FirstItem(t: TreeCursor, d: TreeCursor, v: JSValue)
    requires t.current == v && v.Array? && v.items != [] && !t.inContainer
    requires d == TreeCursor(t.root, v.items[0], !v.items[0].IsContainer(), t.stack + [Entry(v, 0)])
    ensures TreeNextItem(t) == (d, true)
  {
  }

  lemma ShiftedParts(k: Conversions, t: TreeCursor, d: TreeCursor, e: TreeCursor)
    requires TreeInv(t) && TreeInv(d) && TreeInv(e) && Fresh(d) && Fresh(e)
    requires TreeNextItem(t) == (d, true) && TreeNextItem(d) == (e, true)
    requires d.current.Array? && e.current == Int64(7)
    ensures ReadParts(k, [IntShape, IntShape], Tree(t)).0 == [IntArg(0), IntArg(7)]
  {
    hide TreeInv, TreeNextItem, Remaining, SkipToEnd;
    var one, two := [IntShape], [IntShape, IntShape];
    assert one[1..] == [] && two[1..] == one;
    assert ReadInto(k, IntShape, IntArg(0), Tree(d)) == (IntArg(0), Tree(d));
    assert ReadInto(k, IntShape, IntArg(0), Tree(e)) == (IntArg(7), Tree(e));
    assert ReadParts(k, [], Tree(e)).0 == [];
    assert ReadParts(k, one, Tree(d)).0 == [IntArg(7)] + [];
  }
}
