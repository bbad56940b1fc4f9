/** The typed reads as loops over a reader object. */
module ArgLoops {
  import opened JSValues
  import opened JsonTokens
  import opened Cursors
  import opened ReadFroms
  import opened Readers
  import A = ArgReaders

  /** ReadValue into an output: terminates on every reader and does what ReadInto says. */
  method ReadTyped(k: A.Conversions, shape: A.Shape, out: A.Arg, reader: IJSValueReader) returns (a: A.Arg)
    requires reader.Valid()
    modifies reader.Repr()
    ensures reader.Valid() && ReadFroms.Valid(old(reader.Cursor()))
    ensures (a, reader.Cursor()) == A.ReadInto(k, shape, out, old(reader.Cursor()))
    decreases Measure(reader.Cursor()), shape, 1
  {
    hide Measure, A.Placed, A.StaysAbove, A.StaysInside, A.ConvertScalar, A.Default;
    CursorIsValid(reader);
    match shape {
      case OptionalShape(of) =>
        if ValueType(reader.Cursor()) != NullType {
          var b := ReadTyped(k, of, A.Default(of), reader);
          a := A.OptionalArg(Some(b));
        } else {
          a := A.OptionalArg(None);
        }
      case VectorShape(of) =>
        var args := out.Items();
        if ValueType(reader.Cursor()) == ArrayType {
          args := ReadVector(k, of, reader, args);
        }
        a := A.VectorArg(args);
      case MapShape(of) =>
        var entries := out.Entries();
        if ValueType(reader.Cursor()) == ObjectType {
          entries := ReadMap(k, of, reader, entries);
        }
        a := A.MapArg(entries);
      case TupleShape(parts) =>
        var args := ReadArgs(k, parts, reader);
        a := A.TupleArg(args);
      case StructShape(fields) =>
        var values := out.Values();
        if ValueType(reader.Cursor()) == ObjectType {
          values := ReadFields(k, fields, reader, values);
        }
        a := A.StructArg(values);
      case ValueShape =>
        var v := ReadFrom(reader);
        a := A.ValueArg(v);
      case _ =>
        a := A.ConvertScalar(k, shape, Scalar(reader.Cursor()));
    }
  }

  /** What a loop over children knows after a typed read of one. */
  lemma ChildRead(c: Cursor, d: Cursor, e: Cursor)
    requires ReadFroms.Valid(c) && ReadFroms.Valid(e) && SameReader(d, e) && A.StaysInside(d, e)
    requires (NextItem(c).1 && d == NextItem(c).0) || (NextProperty(c).1.Some? && d == NextProperty(c).0)
    ensures Measure(e) < Measure(c)
  {
    hide Measure, ReadFroms.Valid, NextItem, NextProperty, A.StaysInside;
    NextFacts(c);
    A.NextDepth(c);
    A.Continues(c, d, e);
  }

  method ReadVector(k: A.Conversions, of: A.Shape, reader: IJSValueReader, value: seq<A.Arg>) returns (args: seq<A.Arg>)
    requires reader.Valid()
    modifies reader.Repr()
    ensures reader.Valid() && ReadFroms.Valid(old(reader.Cursor()))
    ensures (args, reader.Cursor()) == A.ReadVector(k, of, old(reader.Cursor()), value)
    decreases Measure(reader.Cursor()), of, 0
  {
    hide NextItem, Measure, ReadFroms.Valid, A.ReadInto, A.StaysAbove, A.StaysInside, A.Default;
    CursorIsValid(reader);
    args := value;
    NextFacts(reader.Cursor());
    var found := reader.GetNextArrayItem();
    ghost var start := old(reader.Cursor());
    ghost var here := start;
    while found
      invariant reader.Valid() && ReadFroms.Valid(here) && Measure(here) <= Measure(start)
      invariant (reader.Cursor(), found) == NextItem(here)
      invariant A.ReadVector(k, of, here, args) == A.ReadVector(k, of, start, value)
      decreases Measure(here)
    {
      NextFacts(here);
      ghost var inside := reader.Cursor();
      var a := ReadTyped(k, of, A.Default(of), reader);
      args := args + [a];
      ChildRead(here, inside, reader.Cursor());
      here := reader.Cursor();
      found := reader.GetNextArrayItem();
    }
  }

  method ReadMap(k: A.Conversions, of: A.Shape, reader: IJSValueReader, value: map<Text, A.Arg>) returns (entries: map<Text, A.Arg>)
    requires reader.Valid()
    modifies reader.Repr()
    ensures reader.Valid() && ReadFroms.Valid(old(reader.Cursor()))
    ensures (entries, reader.Cursor()) == A.ReadMap(k, of, old(reader.Cursor()), value)
    decreases Measure(reader.Cursor()), of, 0
  {
    hide NextProperty, Measure, ReadFroms.Valid, A.ReadInto, A.StaysAbove, A.StaysInside, A.Default;
    CursorIsValid(reader);
    entries := value;
    NextFacts(reader.Cursor());
    var found, propertyName := reader.GetNextObjectProperty();
    ghost var start := old(reader.Cursor());
    ghost var here := start;
    while found
      invariant reader.Valid() && ReadFroms.Valid(here) && Measure(here) <= Measure(start)
      invariant (reader.Cursor(), if found then Some(propertyName) else None) == NextProperty(here)
      invariant A.ReadMap(k, of, here, entries) == A.ReadMap(k, of, start, value)
      decreases Measure(here)
    {
      NextFacts(here);
      ghost var inside := reader.Cursor();
      var a := ReadTyped(k, of, A.Default(of), reader);
      if propertyName !in entries {
        entries := entries[propertyName := a];
      }
      ChildRead(here, inside, reader.Cursor());
      here := reader.Cursor();
      found, propertyName := reader.GetNextObjectProperty();
    }
  }

  /** A property that is no field is read and dropped. */
  method ReadFields(k: A.Conversions, fields: seq<A.Field>, reader: IJSValueReader, value: map<Text, A.Arg>)
    returns (values: map<Text, A.Arg>)
    requires reader.Valid()
    modifies reader.Repr()
    ensures reader.Valid() && ReadFroms.Valid(old(reader.Cursor()))
    ensures (values, reader.Cursor()) == A.ReadFields(k, fields, old(reader.Cursor()), value)
    decreases Measure(reader.Cursor()), fields, 0
  {
    hide NextProperty, Measure, ReadFroms.Valid, A.ReadInto, A.StaysAbove, A.StaysInside, A.Default, A.Known, A.FieldShape, A.FieldValue;
    CursorIsValid(reader);
    values := value;
    NextFacts(reader.Cursor());
    var found, propertyName := reader.GetNextObjectProperty();
    ghost var start := old(reader.Cursor());
    ghost var here := start;
    while found
      invariant reader.Valid() && ReadFroms.Valid(here) && Measure(here) <= Measure(start)
      invariant (reader.Cursor(), if found then Some(propertyName) else None) == NextProperty(here)
      invariant A.ReadFields(k, fields, here, values) == A.ReadFields(k, fields, start, value)
      decreases Measure(here)
    {
      NextFacts(here);
      ghost var inside := reader.Cursor();
      var shape := A.FieldShape(fields, propertyName);
      var a := ReadTyped(k, shape, A.FieldValue(values, propertyName, shape), reader);
      if A.Known(fields, propertyName) {
        values := values[propertyName := a];
      }
      ChildRead(here, inside, reader.Cursor());
      here := reader.Cursor();
      found, propertyName := reader.GetNextObjectProperty();
    }
  }

  method SkipArrayToEnd(reader: IJSValueReader) returns (done: bool)
    requires reader.Valid()
    modifies reader.Repr()
    ensures done && reader.Valid() && ReadFroms.Valid(old(reader.Cursor()))
    ensures reader.Cursor() == A.SkipToEnd(old(reader.Cursor()))
  {
    hide NextItem, Measure, ReadFroms.Valid;
    CursorIsValid(reader);
    ghost var items: seq<JSValue> := [];
    NextFacts(reader.Cursor());
    var found := reader.GetNextArrayItem();
    ghost var start := old(reader.Cursor());
    ghost var here := start;
    while found
      invariant reader.Valid() && ReadFroms.Valid(here)
      invariant (reader.Cursor(), found) == NextItem(here)
      invariant ReadItems(here, items) == ReadItems(start, [])
      decreases Measure(here)
    {
      NextFacts(here);
      ghost var inside := reader.Cursor();
      var v := ReadFrom(reader);
      items := items + [v];
      PastShrinks(inside, reader.Cursor());
      here := reader.Cursor();
      found := reader.GetNextArrayItem();
    }
    done := true;
  }

  /** Arguments are read while items are found, and defaulted from then on. */
  method ReadArgs(k: A.Conversions, parts: seq<A.Shape>, reader: IJSValueReader) returns (args: seq<A.Arg>)
    requires reader.Valid()
    modifies reader.Repr()
    ensures reader.Valid() && ReadFroms.Valid(old(reader.Cursor()))
    ensures (args, reader.Cursor()) == A.ReadArgs(k, parts, old(reader.Cursor()))
    decreases Measure(reader.Cursor()), parts, 1
  {
    hide NextItem, Measure, ReadFroms.Valid, A.ReadInto, A.StaysAbove, A.StaysInside, A.Default, A.SkipToEnd;
    CursorIsValid(reader);
    var success := ValueType(reader.Cursor()) == ArrayType;
    args := [];
    ghost var start := old(reader.Cursor());
    RestStart(k, parts, start);
    assert parts[0..] == parts;
    hide Rest;
    for i := 0 to |parts|
      invariant reader.Valid() && ReadFroms.Valid(reader.Cursor())
      invariant Measure(reader.Cursor()) <= Measure(start) || !success
      invariant A.ReadArgs(k, parts, start) == Rest(k, parts[i..], success, args, reader.Cursor())
    {
      ghost var here := reader.Cursor();
      RestMissing(k, parts[i..], args, here);
      assert parts[i..][1..] == parts[i + 1..];
      NextFacts(here);
      if success {
        success := reader.GetNextArrayItem();
      }
      if success {
        FoundFacts(here);
        RestFound(k, parts[i..], args, here, reader.Cursor());
        ghost var inside := reader.Cursor();
        var a := ReadTyped(k, parts[i], A.Default(parts[i]), reader);
        ChildRead(here, inside, reader.Cursor());
        args := args + [a];
      } else {
        args := args + [A.Default(parts[i])];
      }
      CursorIsValid(reader);
    }
    assert parts[|parts|..] == [];
    RestEnd(k, success, args, reader.Cursor());
    if success {
      success := SkipArrayToEnd(reader);
    }
  }

  /** The outcome of the whole call, from the arguments done and those left. */
  ghost function Rest(k: A.Conversions, parts: seq<A.Shape>, success: bool, args: seq<A.Arg>, c: Cursor): (seq<A.Arg>, Cursor)
    requires ReadFroms.Valid(c)
  {
    if success then var (rest, d) := A.ReadParts(k, parts, c); (args + rest, d) else (args + A.Defaults(parts), c)
  }

  lemma RestStart(k: A.Conversions, parts: seq<A.Shape>, c: Cursor)
    requires ReadFroms.Valid(c)
    ensures A.ReadArgs(k, parts, c) == Rest(k, parts, ValueType(c) == ArrayType, [], c)
  {
    hide A.ReadParts, A.StaysInside, A.StaysAbove;
    var (rest, _) := A.ReadParts(k, parts, c);
    assert [] + rest == rest && [] + A.Defaults(parts) == A.Defaults(parts);
  }

  lemma RestEnd(k: A.Conversions, success: bool, args: seq<A.Arg>, c: Cursor)
    requires ReadFroms.Valid(c)
    ensures Rest(k, [], success, args, c) == (args, if success then A.SkipToEnd(c) else c)
  {
    hide A.SkipToEnd, A.ReadInto, NextItem, A.StaysInside, A.StaysAbove;
    assert args + [] == args;
  }

  lemma FoundFacts(c: Cursor)
    requires ReadFroms.Valid(c) && NextItem(c).1
    ensures ReadFroms.Valid(NextItem(c).0) && A.Placed(NextItem(c).0)
  {
    NextFacts(c);
    hide NextItem, ReadFroms.Valid;
  }

  lemma PartsFound(k: A.Conversions, parts: seq<A.Shape>, c: Cursor, d: Cursor)
    requires ReadFroms.Valid(c) && parts != [] && NextItem(c) == (d, true) && ReadFroms.Valid(d) && A.Placed(d)
    ensures var (a, e) := A.ReadInto(k, parts[0], A.Default(parts[0]), d);
            var (rest, f) := A.ReadParts(k, parts[1..], e);
            A.ReadParts(k, parts, c) == ([a] + rest, f)
  {
    hide NextItem, Measure, ReadFroms.Valid, A.Placed, A.ReadInto, A.StaysAbove, A.StaysInside, A.Default, A.Defaults, A.SkipToEnd;
  }

  lemma RestFound(k: A.Conversions, parts: seq<A.Shape>, args: seq<A.Arg>, c: Cursor, d: Cursor)
    requires ReadFroms.Valid(c) && parts != [] && NextItem(c) == (d, true) && ReadFroms.Valid(d) && A.Placed(d)
    ensures var (a, e) := A.ReadInto(k, parts[0], A.Default(parts[0]), d);
            Rest(k, parts, true, args, c) == Rest(k, parts[1..], true, args + [a], e)
  {
    hide NextItem, Measure, ReadFroms.Valid, A.Placed, A.ReadInto, A.ReadParts, A.StaysAbove, A.StaysInside, A.Defaults;
    PartsFound(k, parts, c, d);
    var (a, e) := A.ReadInto(k, parts[0], A.Default(parts[0]), d);
    var (rest, _) := A.ReadParts(k, parts[1..], e);
    assert args + ([a] + rest) == args + [a] + rest;
  }

  lemma RestMissing(k: A.Conversions, parts: seq<A.Shape>, args: seq<A.Arg>, c: Cursor)
    requires ReadFroms.Valid(c) && parts != []
    ensures Rest(k, parts, false, args, c) == Rest(k, parts[1..], false, args + [A.Default(parts[0])], c)
    ensures !NextItem(c).1 ==>
              ReadFroms.Valid(NextItem(c).0)
              && Rest(k, parts, true, args, c) == Rest(k, parts[1..], false, args + [A.Default(parts[0])], NextItem(c).0)
  {
    NextFacts(c);
    hide NextItem, Measure, ReadFroms.Valid, A.ReadInto, A.StaysAbove, A.StaysInside, A.Default, A.SkipToEnd;
    assert args + ([A.Default(parts[0])] + A.Defaults(parts[1..])) == args + [A.Default(parts[0])] + A.Defaults(parts[1..]);
  }
}
