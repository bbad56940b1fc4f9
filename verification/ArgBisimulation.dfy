/** Typed reads over a legal JSON text give the arguments that reads over the tree give. */
module ArgBisimulation {
  import opened JSValues
  import opened JsonTokens
  import opened JsonSyntax
  import opened Cursors
  import opened ReadFroms
  import opened Bisimulation
  import opened ArgReaders

  // Matching states of the two readers, ready for a read.
  ghost predicate Paired(rt: Runtime, c: Cursor, d: Cursor, frames: seq<Frame>, spot: Spot, tail: Text) {
    && c.Json? && c.rt == rt && d.Tree? && Valid(c) && Valid(d)
    && Live(rt, c.json, d.tree, frames, spot, tail)
  }

  lemma PairedInside(rt: Runtime, c: Cursor, d: Cursor, frames: seq<Frame>, spot: Spot, tail: Text)
    requires Paired(rt, c, d, frames, spot, tail) && d.tree.stack != []
    ensures !spot.Spent?
  {
    hide Valid;
    if spot.Spent? {
      SpentIsOut(rt, c.json, d.tree, frames, spot, tail);
    }
  }

  lemma PairedGetters(rt: Runtime, c: Cursor, d: Cursor, frames: seq<Frame>, spot: Spot, tail: Text)
    requires Paired(rt, c, d, frames, spot, tail)
    ensures ValueType(c) == ValueType(d) && Scalar(c) == Scalar(d)
  {
    hide Valid;
    GettersAgree(rt, c.json, d.tree);
  }

  lemma {:induction false} PairedNextItem(rt: Runtime, c: Cursor, d: Cursor, frames: seq<Frame>, spot: Spot, tail: Text)
    returns (frames': seq<Frame>, spot': Spot)
    requires Paired(rt, c, d, frames, spot, tail) && !spot.Spent?
    ensures NextItem(c).1 == NextItem(d).1 && Paired(rt, NextItem(c).0, NextItem(d).0, frames', spot', tail)
    ensures NextItem(c).1 ==> !spot'.Spent?
  {
    NextFacts(c);
    NextFacts(d);
    FoundIsInside(d.tree);
    hide Live, Valid, JsonNextItem, TreeNextItem;
    frames', spot' := NextItemAgrees(rt, c.json, d.tree, frames, spot, tail);
    if NextItem(d).1 {
      PairedInside(rt, NextItem(c).0, NextItem(d).0, frames', spot', tail);
    }
  }

  lemma {:induction false} PairedNextProperty(rt: Runtime, c: Cursor, d: Cursor, frames: seq<Frame>, spot: Spot, tail: Text)
    returns (frames': seq<Frame>, spot': Spot)
    requires Paired(rt, c, d, frames, spot, tail) && !spot.Spent?
    ensures NextProperty(c).1 == NextProperty(d).1 && Paired(rt, NextProperty(c).0, NextProperty(d).0, frames', spot', tail)
    ensures NextProperty(c).1.Some? ==> !spot'.Spent?
  {
    NextFacts(c);
    NextFacts(d);
    FoundIsInside(d.tree);
    hide Live, Valid, JsonNextProperty, TreeNextProperty;
    frames', spot' := NextPropertyAgrees(rt, c.json, d.tree, frames, spot, tail);
    if NextProperty(d).1.Some? {
      PairedInside(rt, NextProperty(c).0, NextProperty(d).0, frames', spot', tail);
    }
  }

  lemma {:induction false} ValuesAgree(rt: Runtime, c: Cursor, d: Cursor, frames: seq<Frame>, spot: Spot, tail: Text)
    returns (frames': seq<Frame>, spot': Spot)
    requires Paired(rt, c, d, frames, spot, tail) && !spot.Spent? && Placed(d)
    ensures ReadValue(c).0 == ReadValue(d).0 && Paired(rt, ReadValue(c).1, ReadValue(d).1, frames', spot', tail)
  {
    hide Live, ReadValue;
    frames', spot' := ReadValueAgrees(rt, c.json, d.tree, frames, spot, tail);
  }

  lemma {:induction false} EndsAgree(rt: Runtime, c: Cursor, d: Cursor, frames: seq<Frame>, spot: Spot, tail: Text)
    returns (frames': seq<Frame>, spot': Spot)
    requires Paired(rt, c, d, frames, spot, tail) && !spot.Spent?
    ensures Paired(rt, SkipToEnd(c), SkipToEnd(d), frames', spot', tail)
  {
    hide Live, ReadItems;
    frames', spot' := ReadItemsAgree(rt, c.json, d.tree, frames, spot, tail, []);
  }

  /** Whatever the type asked for, and whether or not it consumes the value. */
  lemma {:induction false} ArgsAgree(k: Conversions, shape: Shape, out: Arg, rt: Runtime, c: Cursor, d: Cursor,
                                     frames: seq<Frame>, spot: Spot, tail: Text)
    returns (frames': seq<Frame>, spot': Spot)
    requires Paired(rt, c, d, frames, spot, tail) && !spot.Spent? && Placed(d)
    ensures ReadInto(k, shape, out, c).0 == ReadInto(k, shape, out, d).0
    ensures Paired(rt, ReadInto(k, shape, out, c).1, ReadInto(k, shape, out, d).1, frames', spot', tail)
    decreases Measure(d), shape, 1
  {
    hide Paired, Valid, Measure, ReadVector, ReadMap, ReadFields, ReadParts, ReadValue, Scalar, ValueType, ConvertScalar,
         StaysAbove, StaysInside, Default;
    PairedGetters(rt, c, d, frames, spot, tail);
    frames', spot' := frames, spot;
    match shape
    case OptionalShape(of) =>
      if ValueType(d) != NullType {
        frames', spot' := ArgsAgree(k, of, Default(of), rt, c, d, frames, spot, tail);
      }
    case VectorShape(of) =>
      if ValueType(d) == ArrayType {
        frames', spot' := VectorsAgree(k, of, rt, c, d, frames, spot, tail, out.Items());
      }
    case MapShape(of) =>
      if ValueType(d) == ObjectType {
        frames', spot' := MapsAgree(k, of, rt, c, d, frames, spot, tail, out.Entries());
      }
    case TupleShape(parts) =>
      if ValueType(d) == ArrayType {
        frames', spot' := PartsAgree(k, parts, rt, c, d, frames, spot, tail);
      }
    case StructShape(fields) =>
      if ValueType(d) == ObjectType {
        frames', spot' := FieldsAgree(k, fields, rt, c, d, frames, spot, tail, out.Values());
      }
    case ValueShape =>
      frames', spot' := ValuesAgree(rt, c, d, frames, spot, tail);
    case _ =>
  }

  /** A child is read alike, and the readers are still inside the container. */
  lemma {:induction false} ChildAgrees(k: Conversions, shape: Shape, out: Arg, rt: Runtime, c: Cursor, d: Cursor,
                                       frames: seq<Frame>, spot: Spot, tail: Text, parent: Cursor)
    returns (frames': seq<Frame>, spot': Spot)
    requires Paired(rt, c, d, frames, spot, tail) && !spot.Spent? && Placed(d)
    requires parent.Tree? && Valid(parent) && Measure(d) < Measure(parent) && |d.tree.stack| == Floor(parent.tree) + 1
    requires d.tree.stack != []
    ensures ReadInto(k, shape, out, c).0 == ReadInto(k, shape, out, d).0
    ensures Paired(rt, ReadInto(k, shape, out, c).1, ReadInto(k, shape, out, d).1, frames', spot', tail) && !spot'.Spent?
    ensures Measure(ReadInto(k, shape, out, d).1) < Measure(parent)
    decreases Measure(d), shape, 2
  {
    hide Live, Measure, ReadInto;
    frames', spot' := ArgsAgree(k, shape, out, rt, c, d, frames, spot, tail);
    var e := ReadInto(k, shape, out, d).1;
    PairedInside(rt, ReadInto(k, shape, out, c).1, e, frames', spot', tail);
    Continues(parent, d, e);
  }

  lemma {:induction false} VectorsAgree(k: Conversions, of: Shape, rt: Runtime, c: Cursor, d: Cursor,
                                        frames: seq<Frame>, spot: Spot, tail: Text, acc: seq<Arg>)
    returns (frames': seq<Frame>, spot': Spot)
    requires Paired(rt, c, d, frames, spot, tail) && !spot.Spent?
    ensures ReadVector(k, of, c, acc).0 == ReadVector(k, of, d, acc).0
    ensures Paired(rt, ReadVector(k, of, c, acc).1, ReadVector(k, of, d, acc).1, frames', spot', tail)
    decreases Measure(d), of, 0
  {
    hide Live, Valid, Measure, ReadInto, NextItem, StaysAbove, StaysInside, Default;
    NextFacts(d);
    NextDepth(d);
    frames', spot' := PairedNextItem(rt, c, d, frames, spot, tail);
    var (e, found) := NextItem(d);
    if found {
      frames', spot' := ChildAgrees(k, of, Default(of), rt, NextItem(c).0, e, frames', spot', tail, d) by { ChildIsInside(d); }
      var (a, f) := ReadInto(k, of, Default(of), e);
      frames', spot' := VectorsAgree(k, of, rt, ReadInto(k, of, Default(of), NextItem(c).0).1, f, frames', spot', tail, acc + [a]);
    }
  }

  lemma ChildIsInside(d: Cursor)
    requires d.Tree? && Valid(d)
    ensures NextItem(d).1 ==> NextItem(d).0.Tree? && NextItem(d).0.tree.stack != []
    ensures NextProperty(d).1.Some? ==> NextProperty(d).0.Tree? && NextProperty(d).0.tree.stack != []
  {
    FoundIsInside(d.tree);
    hide TreeNextItem, TreeNextProperty;
  }

  lemma {:induction false} MapsAgree(k: Conversions, of: Shape, rt: Runtime, c: Cursor, d: Cursor,
                                     frames: seq<Frame>, spot: Spot, tail: Text, acc: map<Text, Arg>)
    returns (frames': seq<Frame>, spot': Spot)
    requires Paired(rt, c, d, frames, spot, tail) && !spot.Spent?
    ensures ReadMap(k, of, c, acc).0 == ReadMap(k, of, d, acc).0
    ensures Paired(rt, ReadMap(k, of, c, acc).1, ReadMap(k, of, d, acc).1, frames', spot', tail)
    decreases Measure(d), of, 0
  {
    hide Live, Valid, Measure, ReadInto, NextProperty, Emplace, StaysAbove, StaysInside, Default;
    NextFacts(d);
    NextDepth(d);
    frames', spot' := PairedNextProperty(rt, c, d, frames, spot, tail);
    var (e, name) := NextProperty(d);
    if name.Some? {
      frames', spot' := ChildAgrees(k, of, Default(of), rt, NextProperty(c).0, e, frames', spot', tail, d) by { ChildIsInside(d); }
      var (a, f) := ReadInto(k, of, Default(of), e);
      frames', spot' := MapsAgree(k, of, rt, ReadInto(k, of, Default(of), NextProperty(c).0).1, f, frames', spot', tail,
                                  Emplace(acc, name.value, a));
    }
  }

  lemma {:induction false} FieldsAgree(k: Conversions, fields: seq<Field>, rt: Runtime, c: Cursor, d: Cursor,
                                       frames: seq<Frame>, spot: Spot, tail: Text, acc: map<Text, Arg>)
    returns (frames': seq<Frame>, spot': Spot)
    requires Paired(rt, c, d, frames, spot, tail) && !spot.Spent?
    ensures ReadFields(k, fields, c, acc).0 == ReadFields(k, fields, d, acc).0
    ensures Paired(rt, ReadFields(k, fields, c, acc).1, ReadFields(k, fields, d, acc).1, frames', spot', tail)
    decreases Measure(d), fields, 0
  {
    hide Live, Valid, Measure, ReadInto, NextProperty, StaysAbove, StaysInside, FieldShape, FieldValue, Store;
    NextFacts(d);
    NextDepth(d);
    frames', spot' := PairedNextProperty(rt, c, d, frames, spot, tail);
    var (e, name) := NextProperty(d);
    if name.Some? {
      var shape := FieldShape(fields, name.value);
      var out := FieldValue(acc, name.value, shape);
      frames', spot' := ChildAgrees(k, shape, out, rt, NextProperty(c).0, e, frames', spot', tail, d) by { ChildIsInside(d); }
      var (a, f) := ReadInto(k, shape, out, e);
      frames', spot' := FieldsAgree(k, fields, rt, ReadInto(k, shape, out, NextProperty(c).0).1, f, frames', spot', tail,
                                    Store(fields, acc, name.value, a));
    }
  }

  lemma {:induction false} PartsAgree(k: Conversions, parts: seq<Shape>, rt: Runtime, c: Cursor, d: Cursor,
                                      frames: seq<Frame>, spot: Spot, tail: Text)
    returns (frames': seq<Frame>, spot': Spot)
    requires Paired(rt, c, d, frames, spot, tail) && !spot.Spent?
    ensures ReadParts(k, parts, c).0 == ReadParts(k, parts, d).0
    ensures Paired(rt, ReadParts(k, parts, c).1, ReadParts(k, parts, d).1, frames', spot', tail)
    decreases Measure(d), parts, 0
  {
    hide Live, Valid, Measure, ReadInto, NextItem, SkipToEnd, StaysAbove, StaysInside, Default;
    NextFacts(d);
    NextDepth(d);
    if parts == [] {
      frames', spot' := EndsAgree(rt, c, d, frames, spot, tail);
    } else {
      frames', spot' := PairedNextItem(rt, c, d, frames, spot, tail);
      var (e, found) := NextItem(d);
      if found {
        var out := Default(parts[0]);
        frames', spot' := ChildAgrees(k, parts[0], out, rt, NextItem(c).0, e, frames', spot', tail, d) by { ChildIsInside(d); }
        var f := ReadInto(k, parts[0], out, e).1;
        frames', spot' := PartsAgree(k, parts[1..], rt, ReadInto(k, parts[0], out, NextItem(c).0).1, f, frames', spot', tail);
      }
    }
  }

  // ---------- where the JSON reader ends ----------

  /** A type that consumes the value makes the JSON reader go exactly where ReadFrom makes it go. */
  lemma {:induction false} SameEnd(k: Conversions, shape: Shape, out: Arg, rt: Runtime, c: Cursor, d: Cursor,
                                   frames: seq<Frame>, spot: Spot, tail: Text)
    requires Paired(rt, c, d, frames, spot, tail) && !spot.Spent? && Placed(d) && Consumes(shape, d.tree.current)
    ensures ReadInto(k, shape, out, c).1 == ReadValue(c).1
    decreases Measure(d), shape, 1
  {
    hide Live, Valid, Measure, ReadVector, ReadMap, ReadFields, ReadParts, ReadItems, ReadProps, Scalar, ConvertScalar,
         StaysAbove, StaysInside, Default;
    PairedGetters(rt, c, d, frames, spot, tail);
    match shape
    case OptionalShape(of) =>
      if ValueType(d) != NullType {
        SameEnd(k, of, Default(of), rt, c, d, frames, spot, tail);
      }
    case VectorShape(of) =>
      if ValueType(d) == ArrayType {
        AheadOfFresh(d.tree);
        SameVectorEnd(k, of, rt, c, d, frames, spot, tail, out.Items(), []);
      }
    case MapShape(of) =>
      if ValueType(d) == ObjectType {
        AheadOfFresh(d.tree);
        SameMapEnd(k, of, rt, c, d, frames, spot, tail, out.Entries(), []);
      }
    case TupleShape(parts) =>
      if ValueType(d) == ArrayType {
        AheadOfFresh(d.tree);
        SamePartsEnd(k, parts, rt, c, d, frames, spot, tail, []);
      }
    case StructShape(fields) =>
      if ValueType(d) == ObjectType {
        AheadOfFresh(d.tree);
        SameFieldsEnd(k, fields, rt, c, d, frames, spot, tail, out.Values(), []);
      }
    case ValueShape =>
    case _ =>
  }

  lemma AheadOfFresh(t: TreeCursor)
    requires Fresh(t)
    ensures t.current.Array? ==> ItemsAhead(t) == t.current.items
    ensures t.current.Object? ==> PropsAhead(t) == t.current.props
  {
  }

  /** A consumed child: both readers are behind it, and the JSON reader where ReadFrom leaves it. */
  lemma {:induction false} SameChild(k: Conversions, shape: Shape, out: Arg, rt: Runtime, c: Cursor, d: Cursor,
                                     frames: seq<Frame>, spot: Spot, tail: Text, parent: Cursor)
    returns (frames': seq<Frame>, spot': Spot)
    requires Paired(rt, c, d, frames, spot, tail) && !spot.Spent? && Placed(d) && Consumes(shape, d.tree.current)
    requires parent.Tree? && Valid(parent) && Measure(d) < Measure(parent) && |d.tree.stack| == Floor(parent.tree) + 1
    requires d.tree.stack != []
    ensures ReadInto(k, shape, out, c).1 == ReadValue(c).1
    ensures Paired(rt, ReadValue(c).1, Tree(Past(d.tree)), frames', spot', tail) && !spot'.Spent?
    ensures Measure(Tree(Past(d.tree))) < Measure(parent)
    decreases Measure(d), shape, 2
  {
    hide Live, Measure, ReadInto, Consumes, Convert;
    frames', spot' := ChildAgrees(k, shape, out, rt, c, d, frames, spot, tail, parent);
    SameEnd(k, shape, out, rt, c, d, frames, spot, tail);
    TypedRead(k, shape, out, d.tree);
  }

  lemma {:induction false} SameVectorEnd(k: Conversions, of: Shape, rt: Runtime, c: Cursor, d: Cursor,
                                         frames: seq<Frame>, spot: Spot, tail: Text, acc: seq<Arg>, vs: seq<JSValue>)
    requires Paired(rt, c, d, frames, spot, tail) && !spot.Spent? && ConsumesItems(of, ItemsAhead(d.tree))
    ensures ReadVector(k, of, c, acc).1 == ReadItems(c, vs).1
    decreases Measure(d), of, 0
  {
    hide Live, Valid, Measure, ReadInto, ReadValue, NextItem, StaysAbove, StaysInside, Default, ItemsAhead, Consumes;
    NextFacts(d);
    NextDepth(d);
    AheadNext(d);
    var frames', spot' := PairedNextItem(rt, c, d, frames, spot, tail);
    var (e, found) := NextItem(d);
    if found {
      ItemsOneByOne(k, of, ItemsAhead(d.tree), acc);
      frames', spot' := SameChild(k, of, Default(of), rt, NextItem(c).0, e, frames', spot', tail, d) by { ChildIsInside(d); }
      var x := NextItem(c).0;
      SameVectorEnd(k, of, rt, ReadValue(x).1, Tree(Past(e.tree)), frames', spot', tail,
                    acc + [ReadInto(k, of, Default(of), x).0], vs + [ReadValue(x).0]);
    }
  }

  lemma AheadNext(d: Cursor)
    requires d.Tree? && Valid(d)
    ensures NextItem(d).1 ==> ItemsAhead(d.tree) != [] && NextItem(d).0.tree.current == ItemsAhead(d.tree)[0]
                              && ItemsAhead(Past(NextItem(d).0.tree)) == ItemsAhead(d.tree)[1..]
    ensures NextProperty(d).1.Some? ==> PropsAhead(d.tree) != [] && NextProperty(d).1.value == PropsAhead(d.tree)[0].name
                                        && NextProperty(d).0.tree.current == PropsAhead(d.tree)[0].value
                                        && PropsAhead(Past(NextProperty(d).0.tree)) == PropsAhead(d.tree)[1..]
  {
    ItemsAheadNext(d.tree);
    PropsAheadNext(d.tree);
    hide ItemsAhead, PropsAhead, TreeNextItem, TreeNextProperty, Past;
  }

  lemma {:induction false} SameMapEnd(k: Conversions, of: Shape, rt: Runtime, c: Cursor, d: Cursor,
                                      frames: seq<Frame>, spot: Spot, tail: Text, acc: map<Text, Arg>, ps: seq<Property>)
    requires Paired(rt, c, d, frames, spot, tail) && !spot.Spent? && ConsumesProps(of, PropsAhead(d.tree))
    ensures ReadMap(k, of, c, acc).1 == ReadProps(c, ps).1
    decreases Measure(d), of, 0
  {
    hide Live, Valid, Measure, ReadInto, ReadValue, NextProperty, StaysAbove, StaysInside, Default, PropsAhead, Consumes, Emplace, TryEmplace;
    NextFacts(d);
    NextDepth(d);
    AheadNext(d);
    var frames', spot' := PairedNextProperty(rt, c, d, frames, spot, tail);
    var (e, name) := NextProperty(d);
    if name.Some? {
      PropsOneByOne(of, PropsAhead(d.tree));
      frames', spot' := SameChild(k, of, Default(of), rt, NextProperty(c).0, e, frames', spot', tail, d) by { ChildIsInside(d); }
      var x := NextProperty(c).0;
      SameMapEnd(k, of, rt, ReadValue(x).1, Tree(Past(e.tree)), frames', spot', tail,
                 Emplace(acc, name.value, ReadInto(k, of, Default(of), x).0), TryEmplace(ps, name.value, ReadValue(x).0));
    }
  }

  lemma {:induction false} SameFieldsEnd(k: Conversions, fields: seq<Field>, rt: Runtime, c: Cursor, d: Cursor,
                                         frames: seq<Frame>, spot: Spot, tail: Text, acc: map<Text, Arg>, ps: seq<Property>)
    requires Paired(rt, c, d, frames, spot, tail) && !spot.Spent? && ConsumesFields(fields, PropsAhead(d.tree))
    ensures ReadFields(k, fields, c, acc).1 == ReadProps(c, ps).1
    decreases Measure(d), fields, 0
  {
    hide Live, Valid, Measure, ReadInto, ReadValue, NextProperty, StaysAbove, StaysInside, PropsAhead, Consumes, FieldShape, FieldValue,
         Store, TryEmplace;
    NextFacts(d);
    NextDepth(d);
    AheadNext(d);
    var frames', spot' := PairedNextProperty(rt, c, d, frames, spot, tail);
    var (e, name) := NextProperty(d);
    if name.Some? {
      FieldsOneByOne(fields, PropsAhead(d.tree));
      var shape := FieldShape(fields, name.value);
      var out := FieldValue(acc, name.value, shape);
      frames', spot' := SameChild(k, shape, out, rt, NextProperty(c).0, e, frames', spot', tail, d) by { ChildIsInside(d); }
      var x := NextProperty(c).0;
      SameFieldsEnd(k, fields, rt, ReadValue(x).1, Tree(Past(e.tree)), frames', spot', tail,
                    Store(fields, acc, name.value, ReadInto(k, shape, out, x).0), TryEmplace(ps, name.value, ReadValue(x).0));
    }
  }

  lemma {:induction false} SamePartsEnd(k: Conversions, parts: seq<Shape>, rt: Runtime, c: Cursor, d: Cursor,
                                        frames: seq<Frame>, spot: Spot, tail: Text, vs: seq<JSValue>)
    requires Paired(rt, c, d, frames, spot, tail) && !spot.Spent? && ConsumesParts(parts, ItemsAhead(d.tree))
    ensures ReadParts(k, parts, c).1 == ReadItems(c, vs).1
    decreases Measure(d), parts, 0
  {
    hide Live, Valid, Measure, ReadInto, ReadValue, NextItem, StaysAbove, StaysInside, Default, ItemsAhead, Consumes;
    if parts == [] {
      SameSkip(c, [], vs);
    } else {
      NextFacts(d);
      NextDepth(d);
      AheadNext(d);
      var frames', spot' := PairedNextItem(rt, c, d, frames, spot, tail);
      var (e, found) := NextItem(d);
      if found {
        PartsOneByOne(parts, ItemsAhead(d.tree));
        frames', spot' := SameChild(k, parts[0], Default(parts[0]), rt, NextItem(c).0, e, frames', spot', tail, d) by { ChildIsInside(d); }
        var x := NextItem(c).0;
        SamePartsEnd(k, parts[1..], rt, ReadValue(x).1, Tree(Past(e.tree)), frames', spot', tail, vs + [ReadValue(x).0]);
      }
    }
  }

  /** What has been collected does not matter for where a loop ends. */
  lemma {:induction false} SameSkip(c: Cursor, us: seq<JSValue>, vs: seq<JSValue>)
    requires Valid(c)
    ensures ReadItems(c, us).1 == ReadItems(c, vs).1
    decreases Measure(c)
  {
    hide Measure, Valid, NextItem, ReadValue;
    NextFacts(c);
    var (d, found) := NextItem(c);
    if found {
      var (v, e) := ReadValue(d);
      PastShrinks(d, e);
      SameSkip(e, us + [v], vs + [v]);
    }
  }

  lemma StacksAsDeep(rt: Runtime, c: Cursor, d: Cursor, frames: seq<Frame>, spot: Spot, tail: Text)
    requires Paired(rt, c, d, frames, spot, tail)
    ensures |c.json.stack| == |d.tree.stack|
  {
    hide Valid;
    StacksLength(rt, frames, d.tree.stack, c.json.stack);
  }

  /** ReadArgs over the text of an array gives what ReadArgs over the tree gives. The JSON reader ends where a full read
      leaves it if and only if every item is consumed by its type; then the arguments are the items of the text in
      order and after them defaults. */
  lemma ReadArgsFromText(k: Conversions, parts: seq<Shape>, rt: Runtime, lead: Text, n: Node, tail: Text)
    requires Blank(lead) && Legal(rt, n) && n.ArrayNode?
    ensures var c := Json(rt, OpenJson(rt, lead + NodeText(n) + tail));
            var d := Tree(OpenTree(Raw(rt, n)));
            && Valid(c) && Valid(d) && ReadArgs(k, parts, c).0 == ReadArgs(k, parts, d).0
            && (ReadArgs(k, parts, c).1 == ReadValue(c).1 <==> ConsumesParts(parts, RawItems(rt, n.items)))
            && (ConsumesParts(parts, RawItems(rt, n.items)) ==> ReadArgs(k, parts, c).0 == ConvertParts(k, parts, RawItems(rt, n.items)))
  {
    var c := Json(rt, OpenJson(rt, lead + NodeText(n) + tail));
    var d := Tree(OpenTree(Raw(rt, n)));
    OpenAgrees(rt, lead, n, tail);
    OpenIsValid(rt, lead + NodeText(n) + tail);
    var spot := Entering(n, []);
    assert Paired(rt, c, d, [], spot, tail) && Placed(d);
    hide Live, OpenJson, NodeText, Legal, Consumes, Convert, ConsumesParts, ConvertParts, ReadParts;
    PairedGetters(rt, c, d, [], spot, tail);
    TextArgs(k, parts, rt, c, d, spot, tail);
    ReadArgsExactly(k, parts, d.tree);
  }

  lemma TextArgs(k: Conversions, parts: seq<Shape>, rt: Runtime, c: Cursor, d: Cursor, spot: Spot, tail: Text)
    requires Paired(rt, c, d, [], spot, tail) && !spot.Spent? && Placed(d) && d.tree.current.Array?
    ensures ReadArgs(k, parts, c).0 == ReadArgs(k, parts, d).0
    ensures ReadArgs(k, parts, c).1 == ReadValue(c).1 <==> ConsumesParts(parts, d.tree.current.items)
  {
    hide Live, Valid, ConsumesParts, ReadParts, ReadItems, StaysAbove, StaysInside;
    PairedGetters(rt, c, d, [], spot, tail);
    AheadOfFresh(d.tree);
    var frames1, spot1 := PartsAgree(k, parts, rt, c, d, [], spot, tail);
    var frames2, spot2 := ValuesAgree(rt, c, d, [], spot, tail);
    ReadArgsExactly(k, parts, d.tree) by { ValidTree(d); }
    if ConsumesParts(parts, d.tree.current.items) {
      SamePartsEnd(k, parts, rt, c, d, [], spot, tail, []);
    } else {
      StacksAsDeep(rt, ReadArgs(k, parts, c).1, ReadArgs(k, parts, d).1, frames1, spot1, tail);
      StacksAsDeep(rt, ReadValue(c).1, ReadValue(d).1, frames2, spot2, tail);
      LagIsDeeper(k, parts, d);
    }
  }

  lemma ValidTree(d: Cursor)
    requires Valid(d) && d.Tree?
    ensures TreeInv(d.tree)
  {
  }

  lemma LagIsDeeper(k: Conversions, parts: seq<Shape>, d: Cursor)
    requires d.Tree? && Valid(d) && Placed(d) && d.tree.current.Array? && !ConsumesParts(parts, d.tree.current.items)
    ensures |ReadArgs(k, parts, d).1.tree.stack| > |ReadValue(d).1.tree.stack|
  {
    AheadOfFresh(d.tree);
    PartsRead(k, parts, d.tree);
    hide ReadParts, ReadValue, TreeInv, ConsumesParts, StaysAbove, StaysInside;
  }
}
