/** The two readers as objects, the interface over them, and JSValue::ReadFrom with its loops. */
module Readers {
  import opened JSValues
  import opened JsonTokens
  import opened JsonReaders
  import opened Cursors
  import opened ReadFroms

  // The stored text and union, of no meaning before a scalar is read.
  const NO_TEXT: Text := []

  class JSValueTreeReader {
    const root: JSValue
    var current: JSValue
    var isInContainer: bool
    var stack: seq<Entry>

    function State(): TreeCursor
      reads this
    {
      TreeCursor(root, current, isInContainer, stack)
    }

    constructor (value: JSValue)
      ensures State() == OpenTree(value) && TreeInv(State())
    {
      root := value;
      current := value;
      isInContainer := false;
      stack := [];
    }

    method SetCurrentValue(value: JSValue)
      modifies this`current, this`isInContainer
      ensures State() == TreeSetCurrent(old(State()), value)
    {
      current := value;
      match value.Type() {
        case ObjectType => isInContainer := false;
        case ArrayType => isInContainer := false;
        case _ => isInContainer := true;
      }
    }

    method GetNextObjectProperty() returns (found: bool, propertyName: Text)
      requires TreeInv(State())
      modifies this
      ensures TreeInv(State())
      ensures (State(), if found then Some(propertyName) else None) == TreeNextProperty(old(State()))
      ensures !found ==> propertyName == []
    {
      TreeNextKeepsInv(State());
      if !isInContainer {
        if current.Object? {
          if current.props != [] {
            var property := current.props[0];
            stack := stack + [Entry(current, 0)];
            SetCurrentValue(property.value);
            return true, property.name;
          } else {
            isInContainer := stack != [];
          }
        }
      } else if stack != [] {
        var entry := stack[|stack| - 1];
        if entry.value.Object? {
          var index := entry.index + 1;
          if index != |entry.value.props| {
            stack := stack[..|stack| - 1] + [entry.(index := index)];
            SetCurrentValue(entry.value.props[index].value);
            return true, entry.value.props[index].name;
          } else {
            current := entry.value;
            stack := stack[..|stack| - 1];
            isInContainer := stack != [];
          }
        }
      }
      return false, [];
    }

    method GetNextArrayItem() returns (found: bool)
      requires TreeInv(State())
      modifies this
      ensures TreeInv(State())
      ensures (State(), found) == TreeNextItem(old(State()))
    {
      TreeNextKeepsInv(State());
      if !isInContainer {
        if current.Array? {
          if current.items != [] {
            stack := stack + [Entry(current, 0)];
            SetCurrentValue(current.items[0]);
            return true;
          } else {
            isInContainer := stack != [];
          }
        }
      } else if stack != [] {
        var entry := stack[|stack| - 1];
        if entry.value.Array? {
          var index := entry.index + 1;
          if index != |entry.value.items| {
            stack := stack[..|stack| - 1] + [entry.(index := index)];
            SetCurrentValue(entry.value.items[index]);
            return true;
          } else {
            current := entry.value;
            stack := stack[..|stack| - 1];
            isInContainer := stack != [];
          }
        }
      }
      return false;
    }
  }

  class JsonJSValueReader {
    const jsonReader: JsonReader
    var valueType: JSValueType
    var stack: seq<JSValueType>
    var isIterating: bool
    var stringValue: Text
    var slot: Slot

    function State(): JsonCursor
      reads this, jsonReader
      requires jsonReader.current <= |jsonReader.buffer|
    {
      JsonCursor(jsonReader.State(), valueType, stack, isIterating, stringValue, slot)
    }

    ghost predicate Valid()
      reads this, jsonReader
    {
      jsonReader.Valid() && Ready(jsonReader.State())
    }

    constructor (rt: Runtime, jsonText: Text)
      ensures Valid() && fresh(jsonReader) && jsonReader.rt == rt && State() == OpenJson(rt, jsonText)
    {
      jsonReader := new JsonReader(rt, jsonText);
      valueType, stack, isIterating, stringValue, slot := NullType, [], false, NO_TEXT, BoolSlot(false);
      new;
      var t := jsonReader.ReadNext();
      SetCurrentValue(t);
    }

    method SetCurrentValue(t: ParseState)
      requires Valid()
      modifies this`valueType, this`isIterating, this`stringValue, this`slot
      ensures Valid() && State() == JsonSetCurrent(jsonReader.rt, old(State()), t)
    {
      match t {
        case StartObject =>
          valueType, isIterating := ObjectType, false;
        case StartArray =>
          valueType, isIterating := ArrayType, false;
        case Value =>
          SetScalarValue();
        case _ =>
          valueType := NullType;
      }
    }

    /** The kinds are tried in this order; every attempt writes the union. */
    method SetScalarValue()
      requires Valid()
      modifies this`valueType, this`isIterating, this`stringValue, this`slot
      ensures Valid() && State() == JsonSetCurrent(jsonReader.rt, old(State()), Value)
    {
      hide Inv;
      isIterating := true;
      var isString, text := jsonReader.GetString();
      if isString {
        valueType, stringValue := StringType, text;
        return;
      }
      var ok, i := jsonReader.GetInt64();
      slot := IntSlot(i);
      if ok {
        valueType := Int64Type;
        return;
      }
      var d;
      ok, d := jsonReader.GetDouble();
      slot := DoubleSlot(d);
      if ok {
        valueType := DoubleType;
        return;
      }
      var b;
      ok, b := jsonReader.GetBool();
      slot := BoolSlot(b);
      if ok {
        valueType := BooleanType;
        return;
      }
      valueType := NullType;
    }

    method GetHString() returns (s: Text)
      requires Valid()
      ensures s == if jsonReader.State().isString then jsonReader.State().text else []
    {
      var ok, text := jsonReader.GetString();
      s := text;
    }

    method GetNextObjectProperty() returns (found: bool, propertyName: Text)
      requires Valid()
      modifies this, jsonReader
      ensures Valid()
      ensures (State(), if found then Some(propertyName) else None) == JsonNextProperty(jsonReader.rt, old(State()))
      ensures !found ==> propertyName == []
    {
      hide Inv, JsonTokens.ReadNext, JsonSetCurrent;
      if !isIterating {
        if valueType == ObjectType {
          var t := jsonReader.ReadNext();
          if t == Name {
            stack := stack + [ObjectType];
            propertyName := GetHString();
            t := jsonReader.ReadNext();
            SetCurrentValue(t);
            return true, propertyName;
          } else {
            isIterating := stack != [];
          }
        }
      } else if stack != [] {
        var top := stack[|stack| - 1];
        if top == ObjectType {
          var t := jsonReader.ReadNext();
          if t == Name {
            propertyName := GetHString();
            t := jsonReader.ReadNext();
            SetCurrentValue(t);
            return true, propertyName;
          } else {
            valueType := top;
            stack := stack[..|stack| - 1];
            isIterating := stack != [];
          }
        }
      }
      return false, [];
    }

    method GetNextArrayItem() returns (found: bool)
      requires Valid()
      modifies this, jsonReader
      ensures Valid()
      ensures (State(), found) == JsonNextItem(jsonReader.rt, old(State()))
    {
      hide Inv, JsonTokens.ReadNext, JsonSetCurrent;
      if !isIterating {
        if valueType == ArrayType {
          var t := jsonReader.ReadNext();
          if IsContainerOrValue(t) {
            stack := stack + [ArrayType];
            SetCurrentValue(t);
            return true;
          } else {
            isIterating := stack != [];
          }
        }
      } else if stack != [] {
        var top := stack[|stack| - 1];
        if top == ArrayType {
          var t := jsonReader.ReadNext();
          if IsContainerOrValue(t) {
            SetCurrentValue(t);
            return true;
          } else {
            valueType := top;
            stack := stack[..|stack| - 1];
            isIterating := stack != [];
          }
        }
      }
      return false;
    }
  }

  // ---------- the interface ----------

  datatype IJSValueReader = OfTree(tree: JSValueTreeReader) | OfJson(json: JsonJSValueReader)
  {
    ghost function Repr(): set<object> {
      match this
      case OfTree(t) => {t}
      case OfJson(j) => {j, j.jsonReader}
    }

    ghost predicate Valid()
      reads Repr()
    {
      match this
      case OfTree(t) => TreeInv(t.State())
      case OfJson(j) => j.Valid()
    }

    function Cursor(): Cursor
      reads Repr()
      requires Valid()
    {
      match this
      case OfTree(t) => Tree(t.State())
      case OfJson(j) => Json(j.jsonReader.rt, j.State())
    }

    method GetNextObjectProperty() returns (found: bool, propertyName: Text)
      requires Valid()
      modifies Repr()
      ensures Valid() && (Cursor(), if found then Some(propertyName) else None) == NextProperty(old(Cursor()))
    {
      match this
      case OfTree(t) => found, propertyName := t.GetNextObjectProperty();
      case OfJson(j) => found, propertyName := j.GetNextObjectProperty();
    }

    method GetNextArrayItem() returns (found: bool)
      requires Valid()
      modifies Repr()
      ensures Valid() && (Cursor(), found) == NextItem(old(Cursor()))
    {
      match this
      case OfTree(t) => found := t.GetNextArrayItem();
      case OfJson(j) => found := j.GetNextArrayItem();
    }
  }

  lemma CursorIsValid(reader: IJSValueReader)
    requires reader.Valid()
    ensures ReadFroms.Valid(reader.Cursor())
  {
  }

  // ---------- JSValue::ReadFrom ----------

  /** Terminates on every reader and every input, and does what ReadValue says. */
  method ReadFrom(reader: IJSValueReader) returns (v: JSValue)
    requires reader.Valid()
    modifies reader.Repr()
    ensures reader.Valid() && ReadFroms.Valid(old(reader.Cursor()))
    ensures (v, reader.Cursor()) == ReadValue(old(reader.Cursor()))
    decreases Measure(reader.Cursor()), 1
  {
    CursorIsValid(reader);
    match ValueType(reader.Cursor()) {
      case ObjectType =>
        var props := ReadObject(reader);
        v := Object(props);
      case ArrayType =>
        var items := ReadArray(reader);
        v := Array(items);
      case _ =>
        v := Scalar(reader.Cursor());
    }
  }

  method ReadArray(reader: IJSValueReader) returns (items: seq<JSValue>)
    requires reader.Valid()
    modifies reader.Repr()
    ensures reader.Valid() && ReadFroms.Valid(old(reader.Cursor()))
    ensures (items, reader.Cursor()) == ReadItems(old(reader.Cursor()), [])
    decreases Measure(reader.Cursor()), 0
  {
    hide NextItem, Measure, ReadFroms.Valid;
    CursorIsValid(reader);
    items := [];
    NextFacts(reader.Cursor());
    var found := reader.GetNextArrayItem();
    ghost var start := old(reader.Cursor());
    ghost var here := start;
    while found
      invariant reader.Valid() && ReadFroms.Valid(here) && Measure(here) <= Measure(start)
      invariant (reader.Cursor(), found) == NextItem(here)
      invariant ReadItems(here, items) == ReadItems(start, [])
      decreases Measure(here)
    {
      NextFacts(here);
      ghost var inside := reader.Cursor();
      var v := ReadFrom(reader);
      items := items + [v];
      PastShrinks(inside, reader.Cursor());
      here := reader.Cursor();
      found := reader.GetNextArrayItem();
    }
  }

  method ReadObject(reader: IJSValueReader) returns (props: seq<Property>)
    requires reader.Valid()
    modifies reader.Repr()
    ensures reader.Valid() && ReadFroms.Valid(old(reader.Cursor()))
    ensures (props, reader.Cursor()) == ReadProps(old(reader.Cursor()), [])
    decreases Measure(reader.Cursor()), 0
  {
    hide NextProperty, Measure, ReadFroms.Valid;
    CursorIsValid(reader);
    props := [];
    NextFacts(reader.Cursor());
    var found, propertyName := reader.GetNextObjectProperty();
    ghost var start := old(reader.Cursor());
    ghost var here := start;
    while found
      invariant reader.Valid() && ReadFroms.Valid(here) && Measure(here) <= Measure(start)
      invariant (reader.Cursor(), if found then Some(propertyName) else None) == NextProperty(here)
      invariant ReadProps(here, props) == ReadProps(start, [])
      decreases Measure(here)
    {
      NextFacts(here);
      ghost var inside := reader.Cursor();
      var v := ReadFrom(reader);
      props := TryEmplace(props, propertyName, v);
      PastShrinks(inside, reader.Cursor());
      here := reader.Cursor();
      found, propertyName := reader.GetNextObjectProperty();
    }
  }
}
