/** What typed reads of scalars return, case by case in literal values. */
module ScalarReads {
  import opened JSValues
  import opened JsonTokens
  import opened JsonSyntax
  import opened Cursors
  import opened ReadFroms
  import opened ArgReaders
  import L = Literals

  /** Scalar types only look: the reader does not move. */
  lemma ScalarRead(k: Conversions, shape: Shape, out: Arg, t: TreeCursor)
    requires TreeInv(t) && shape.IsScalar()
    ensures ReadInto(k, shape, out, Tree(t)) == (ConvertScalar(k, shape, Scalar(Tree(t))), Tree(t))
    ensures Scalar(Tree(t)) == if t.current.IsContainer() then Null else t.current
  {
    hide TreeInv, ConvertScalar, StaysAbove, StaysInside;
  }

  /** A bool is true for a nonempty text, true, a nonzero integer, and a double other than zero (NaN too). */
  lemma BoolRead(k: Conversions, out: Arg, t: TreeCursor)
    requires TreeInv(t)
    ensures var b := (t.current.String? && |t.current.str| > 0) || t.current == Boolean(true)
                     || (t.current.Int64? && (t.current.i < 0 || t.current.i > 0))
                     || (t.current.Number? && t.current.d != Finite(0.0));
            ReadInto(k, BoolShape, out, Tree(t)) == (BoolArg(b), Tree(t))
  {
    hide TreeInv, ReadInto;
    ScalarRead(k, BoolShape, out, t);
  }

  /** The text of a text is itself, of a boolean its word, of an integer its decimal numeral, of null and containers empty. */
  lemma TextRead(k: Conversions, out: Arg, t: TreeCursor)
    requires TreeInv(t)
    ensures ReadInto(k, TextShape, out, Tree(t)).0.TextArg? && ReadInto(k, TextShape, out, Tree(t)).1 == Tree(t)
    ensures var s := ReadInto(k, TextShape, out, Tree(t)).0.text;
            && (t.current.String? ==> s == t.current.str)
            && (t.current == Boolean(true) ==> s == L.Units("true")) && (t.current == Boolean(false) ==> s == L.Units("false"))
            && (t.current.Int64? ==> s == Decimal(t.current.i))
            && (t.current.Number? ==> s == k.show(t.current.d))
            && (t.current.Null? || t.current.IsContainer() ==> s == [])
  {
    hide TreeInv, ReadInto;
    ScalarRead(k, TextShape, out, t);
    L.WordLiterals();
  }

  /** An integer is 1 or 0 for a boolean, itself for an integer, what the runtime reads in a text or else 0, the
      truncated double, and 0 for null and containers. */
  lemma IntRead(k: Conversions, out: Arg, t: TreeCursor)
    requires TreeInv(t)
    ensures ReadInto(k, IntShape, out, Tree(t)).0.IntArg? && ReadInto(k, IntShape, out, Tree(t)).1 == Tree(t)
    ensures var i := ReadInto(k, IntShape, out, Tree(t)).0.i;
            && (t.current == Boolean(true) ==> i == 1) && (t.current == Boolean(false) ==> i == 0)
            && (t.current.Int64? ==> i == t.current.i)
            && (t.current.String? && k.rt.wcstoi64(t.current.str) == None ==> i == 0)
            && (t.current.String? && k.rt.wcstoi64(t.current.str).Some? ==> i == k.rt.wcstoi64(t.current.str).value)
            && (t.current.Number? ==> i == k.truncate(t.current.d))
            && (t.current.Null? || t.current.IsContainer() ==> i == 0)
  {
    hide TreeInv, ReadInto;
    ScalarRead(k, IntShape, out, t);
  }

  /** The decimal numeral of an integer reads as that integer. */
  lemma NumeralRead(k: Conversions, out: Arg, t: TreeCursor, i: I64)
    requires TreeInv(t) && ReadsDecimals(k.rt) && t.current == String(Decimal(i))
    ensures ReadInto(k, IntShape, out, Tree(t)).0 == IntArg(i)
  {
    hide TreeInv, ReadInto;
    IntRead(k, out, t);
    assert k.rt.wcstoi64(Decimal(i)) == Some(i);
  }

  lemma DoubleRead(k: Conversions, out: Arg, t: TreeCursor)
    requires TreeInv(t)
    ensures ReadInto(k, DoubleShape, out, Tree(t)).0.DoubleArg? && ReadInto(k, DoubleShape, out, Tree(t)).1 == Tree(t)
    ensures var d := ReadInto(k, DoubleShape, out, Tree(t)).0.d;
            && (t.current == Boolean(true) ==> d == Finite(1.0)) && (t.current == Boolean(false) ==> d == Finite(0.0))
            && (t.current.Number? ==> d == t.current.d)
            && (t.current.Int64? ==> d == k.round(t.current.i))
            && (t.current.String? && k.rt.wcstod(t.current.str) == None ==> d == Finite(0.0))
            && (t.current.String? && k.rt.wcstod(t.current.str).Some? ==> d == k.rt.wcstod(t.current.str).value)
            && (t.current.Null? || t.current.IsContainer() ==> d == Finite(0.0))
            && ReadInto(k, FloatShape, out, Tree(t)) == (DoubleArg(k.toFloat(d)), Tree(t))
  {
    hide TreeInv, ReadInto;
    ScalarRead(k, DoubleShape, out, t);
    ScalarRead(k, FloatShape, out, t);
  }

  // The values of each integer type.

  function Least(w: Width): int {
    match w
    case S8 => -128
    case S16 => -32768
    case S32 => -2147483648
    case _ => 0
  }

  function Greatest(w: Width): int {
    match w
    case S8 => 127
    case U8 => 255
    case S16 => 32767
    case U16 => 65535
    case S32 => 2147483647
    case U32 => 4294967295
    case U64 => 18446744073709551615
  }

  /** Adding the number of values of the type so many times leads from `i` to `x`. */
  predicate Shifted(x: int, i: int, laps: int, w: Width) {
    x == i + laps * (Greatest(w) - Least(w) + 1)
  }

  /** A narrow integer is a value of its type, and differs from the Int64 read by a multiple of the number of its values. */
  lemma NarrowRead(k: Conversions, w: Width, out: Arg, t: TreeCursor)
    requires TreeInv(t)
    ensures ReadInto(k, NarrowShape(w), out, Tree(t)).0.IntArg? && ReadInto(k, NarrowShape(w), out, Tree(t)).1 == Tree(t)
    ensures ReadInto(k, IntShape, out, Tree(t)).0.IntArg?
    ensures var x, i := ReadInto(k, NarrowShape(w), out, Tree(t)).0.i, ReadInto(k, IntShape, out, Tree(t)).0.i;
            Least(w) <= x <= Greatest(w) && exists laps :: Shifted(x, i, laps, w)
  {
    hide TreeInv, ReadInto;
    ScalarRead(k, NarrowShape(w), out, t);
    ScalarRead(k, IntShape, out, t);
    var laps := Wrapped(w, ToInt64(k, Scalar(Tree(t))));
    hide Wrap, ToInt64, Shifted, Scalar;
  }

  lemma Wrapped(w: Width, i: int) returns (laps: int)
    ensures Least(w) <= Wrap(w, i) <= Greatest(w) && Shifted(Wrap(w, i), i, laps, w)
  {
    var m := Greatest(w) - Least(w) + 1;
    laps := -((i - Least(w)) / m);
    assert Wrap(w, i) == (i - Least(w)) % m + Least(w);
    Residue(i - Least(w), m);
    hide Wrap;
  }

  lemma Residue(i: int, m: int)
    requires m > 0
    ensures i % m == i + -(i / m) * m && 0 <= i % m < m
  {
  }

  /** An argument behind the last item has the value its type starts with. */
  lemma MissingArgument(k: Conversions, parts: seq<Shape>, t: TreeCursor, i: nat)
    requires TreeInv(t) && Fresh(t) && t.current.Array? && ConsumesParts(parts, t.current.items)
    requires |t.current.items| <= i < |parts|
    ensures var a := ReadArgs(k, parts, Tree(t)).0[i];
            match parts[i]
            case TextShape => a == TextArg([])
            case BoolShape => a == BoolArg(false)
            case IntShape => a == IntArg(0)
            case NarrowShape(_) => a == IntArg(0)
            case DoubleShape => a == DoubleArg(Finite(0.0))
            case FloatShape => a == DoubleArg(Finite(0.0))
            case OptionalShape(_) => a == OptionalArg(None)
            case VectorShape(_) => a == VectorArg([])
            case MapShape(_) => a == MapArg(map[])
            case TupleShape(ps) => a.TupleArg? && |a.parts| == |ps|
            case StructShape(_) => a == StructArg(map[])
            case ValueShape => a == ValueArg(Null)
  {
    ReadArgsExactly(k, parts, t);
    ConvertPartsAt(k, parts, t.current.items, i);
    hide ReadArgs, TreeInv, ConsumesParts, ConvertParts, ReadValue;
  }

  /** A property is read as the first field of its name; one that is no field is read as a JSValue. */
  lemma {:induction false} FieldShapeOfName(fields: seq<Field>, name: Text) returns (i: nat)
    ensures i <= |fields| && (forall j :: 0 <= j < i ==> fields[j].name != name)
    ensures if i < |fields| then Known(fields, name) && fields[i].name == name && FieldShape(fields, name) == fields[i].shape
            else !Known(fields, name) && FieldShape(fields, name) == ValueShape
  {
    i := 0;
    if fields != [] && fields[0].name != name {
      var k := FieldShapeOfName(fields[1..], name);
      i := k + 1;
      KnownTail(fields, name);
    }
  }

  lemma KnownTail(fields: seq<Field>, name: Text)
    requires fields != [] && fields[0].name != name
    ensures Known(fields, name) <==> Known(fields[1..], name)
  {
    if Known(fields[1..], name) {
      var j :| 0 <= j < |fields[1..]| && fields[1..][j].name == name;
      assert fields[j + 1].name == name;
    }
    if Known(fields, name) {
      var j :| 0 <= j < |fields| && fields[j].name == name;
      assert fields[1..][j - 1].name == name;
    }
  }

  /** A vector read appends to what its output holds, a map keeps it, and types of the wrong kind leave it alone. */
  lemma OutputIsKept(k: Conversions, of: Shape, held: seq<Arg>, m: map<Text, Arg>, t: TreeCursor)
    requires TreeInv(t) && Fresh(t)
    ensures t.current.Array? && ConsumesItems(of, t.current.items) ==>
              ReadInto(k, VectorShape(of), VectorArg(held), Tree(t)).0 == VectorArg(held + ConvertItems(k, of, t.current.items))
    ensures !t.current.Array? ==> ReadInto(k, VectorShape(of), VectorArg(held), Tree(t)).0 == VectorArg(held)
    ensures t.current.Object? && ConsumesProps(of, t.current.props) ==>
              ReadInto(k, MapShape(of), MapArg(m), Tree(t)).0 == MapArg(ConvertProps(k, of, t.current.props, m))
    ensures !t.current.Object? ==> ReadInto(k, MapShape(of), MapArg(m), Tree(t)).0 == MapArg(m)
  {
    hide TreeInv, ReadInto, Convert, Consumes, ConvertItems, ConvertProps, ReadVector, ReadMap, ConsumesItems, ConsumesProps;
    VectorUnfold(k, of, VectorArg(held), t);
    MapUnfold(k, of, MapArg(m), t);
    if t.current.Array? {
      VectorRead(k, of, t, held);
    }
    if t.current.Object? {
      MapRead(k, of, t, m);
    }
  }

  /** The same for a struct: its fields hold what they held, or their properties; no other property leaves a trace. */
  lemma StructIsKept(k: Conversions, fields: seq<Field>, held: map<Text, Arg>, t: TreeCursor)
    requires TreeInv(t) && Fresh(t)
    ensures t.current.Object? && ConsumesFields(fields, t.current.props) ==>
              ReadInto(k, StructShape(fields), StructArg(held), Tree(t)).0
              == StructArg(ConvertFields(k, fields, t.current.props, held))
    ensures !t.current.Object? ==> ReadInto(k, StructShape(fields), StructArg(held), Tree(t)).0 == StructArg(held)
  {
    hide TreeInv, ReadInto, Convert, Consumes, ConvertFields, ReadFields, ConsumesFields;
    StructUnfold(k, fields, StructArg(held), t);
    if t.current.Object? {
      FieldsRead(k, fields, t, held);
    }
  }

  lemma {:induction false} OnlyFieldsAreStored(k: Conversions, fields: seq<Field>, ps: seq<Property>, acc: map<Text, Arg>, name: Text)
    requires name in ConvertFields(k, fields, ps, acc)
    ensures name in acc || (Known(fields, name) && HasName(ps, name))
  {
    hide Convert, Known, FieldShape, FieldValue;
    if ps != [] {
      var shape := FieldShape(fields, ps[0].name);
      var a := Convert(k, shape, FieldValue(acc, ps[0].name, shape), ps[0].value);
      OnlyFieldsAreStored(k, fields, ps[1..], Store(fields, acc, ps[0].name, a), name);
      if HasName(ps[1..], name) {
        var j :| 0 <= j < |ps[1..]| && ps[1..][j].name == name;
        assert ps[j + 1].name == name;
      }
    }
  }

  /** Names that are no field keep what was held under them. */
  lemma {:induction false} OthersAreKept(k: Conversions, fields: seq<Field>, ps: seq<Property>, acc: map<Text, Arg>, name: Text)
    requires name in acc && !(Known(fields, name) && HasName(ps, name))
    ensures name in ConvertFields(k, fields, ps, acc) && ConvertFields(k, fields, ps, acc)[name] == acc[name]
  {
    hide Convert, Known, FieldShape, FieldValue;
    if ps != [] {
      var shape := FieldShape(fields, ps[0].name);
      var a := Convert(k, shape, FieldValue(acc, ps[0].name, shape), ps[0].value);
      if HasName(ps[1..], name) {
        var j :| 0 <= j < |ps[1..]| && ps[1..][j].name == name;
        assert ps[j + 1].name == name;
      }
      assert ps[0].name == name ==> HasName(ps, name);
      OthersAreKept(k, fields, ps[1..], Store(fields, acc, ps[0].name, a), name);
    }
  }
}
