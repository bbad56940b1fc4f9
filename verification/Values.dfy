/** The JSValue variant, text and doubles, and key-sorted objects. */
module JSValues {

  // UTF-16 code units. Conversion between narrow and wide strings is the identity here.
  type Unit = c: int | 0 <= c < 0x1_0000
  type Text = seq<Unit>

  type I64 = i: int | -0x8000_0000_0000_0000 <= i < 0x8000_0000_0000_0000

  const TAB: Unit := 0x09
  const LF: Unit := 0x0A
  const CR: Unit := 0x0D
  const SPACE: Unit := 0x20
  const QUOTE: Unit := 0x22
  const COMMA: Unit := 0x2C
  const MINUS: Unit := 0x2D
  const ZERO: Unit := 0x30
  const COLON: Unit := 0x3A
  const LBRACKET: Unit := 0x5B
  const BACKSLASH: Unit := 0x5C
  const RBRACKET: Unit := 0x5D
  const LOWER_U: Unit := 0x75
  const LBRACE: Unit := 0x7B
  const RBRACE: Unit := 0x7D

  const TRUE_TEXT: Text := [0x74, 0x72, 0x75, 0x65]
  const FALSE_TEXT: Text := [0x66, 0x61, 0x6C, 0x73, 0x65]
  const NULL_TEXT: Text := [0x6E, 0x75, 0x6C, 0x6C]

  datatype Option<+T> = None | Some(value: T)

  // IEEE doubles up to the sign of zero.
  datatype Double = NaN | PosInf | NegInf | Finite(value: real)

  /** C++ `==` on doubles: NaN differs from everything, itself included. */
  predicate DoubleEq(x: Double, y: Double) {
    x != NaN && x == y
  }

  datatype JSValueType = NullType | ObjectType | ArrayType | StringType | BooleanType | Int64Type | DoubleType

  datatype Property = Property(name: Text, value: JSValue)

  // An object lists its properties in iteration order; a std::map keeps them sorted by name (see WellFormed).
  datatype JSValue =
    | Null
    | Object(props: seq<Property>)
    | Array(items: seq<JSValue>)
    | String(str: Text)
    | Boolean(b: bool)
    | Int64(i: I64)
    | Number(d: Double)
  {
    function Type(): JSValueType {
      match this
      case Null => NullType
      case Object(_) => ObjectType
      case Array(_) => ArrayType
      case String(_) => StringType
      case Boolean(_) => BooleanType
      case Int64(_) => Int64Type
      case Number(_) => DoubleType
    }

    predicate IsContainer() {
      Object? || Array?
    }
  }

  // ---------- decimal numerals ----------

  function Digits(n: nat): Text {
    if n < 10 then [ZERO + n] else Digits(n / 10) + [ZERO + n % 10]
  }

  function Decimal(i: int): Text {
    if i < 0 then [MINUS] + Digits(-i) else Digits(i)
  }

  // ---------- the order std::map uses for names ----------

  predicate Less(a: Text, b: Text) {
    b != [] && (a == [] || a[0] < b[0] || (a[0] == b[0] && Less(a[1..], b[1..])))
  }

  lemma {:induction false} LessIrreflexive(a: Text)
    ensures !Less(a, a)
  {
    if a != [] {
      LessIrreflexive(a[1..]);
    }
  }

  lemma {:induction false} LessTransitive(a: Text, b: Text, c: Text)
    requires Less(a, b) && Less(b, c)
    ensures Less(a, c)
  {
    if a != [] && a[0] == b[0] && b[0] == c[0] {
      LessTransitive(a[1..], b[1..], c[1..]);
    }
  }

  lemma {:induction false} LessTotal(a: Text, b: Text)
    ensures a == b || Less(a, b) || Less(b, a)
  {
    if a != [] && b != [] && a[0] == b[0] {
      LessTotal(a[1..], b[1..]);
      assert a == [a[0]] + a[1..] && b == [b[0]] + b[1..];
    }
  }

  /** Up to position k the texts are the same, and there `a` ends or has the smaller unit. */
  predicate DecidesAt(a: Text, b: Text, k: nat) {
    k <= |a| && k < |b| && a[..k] == b[..k] && (k == |a| || a[k] < b[k])
  }

  ghost predicate UnitLess(a: Text, b: Text) {
    exists k: nat :: DecidesAt(a, b, k)
  }

  lemma {:induction false} LessDecides(a: Text, b: Text) returns (k: nat)
    requires Less(a, b)
    ensures DecidesAt(a, b, k)
  {
    if a == [] || a[0] < b[0] {
      k := 0;
    } else {
      var j := LessDecides(a[1..], b[1..]);
      k := j + 1;
      assert a[..k] == [a[0]] + a[1..][..j] && b[..k] == [b[0]] + b[1..][..j];
    }
  }

  lemma {:induction false} DecidesLess(a: Text, b: Text, k: nat)
    requires DecidesAt(a, b, k)
    ensures Less(a, b)
  {
    if k > 0 {
      assert a[0] == a[..k][0] && b[0] == b[..k][0];
      assert a[1..][..k - 1] == a[..k][1..] && b[1..][..k - 1] == b[..k][1..];
      DecidesLess(a[1..], b[1..], k - 1);
    }
  }

  /** The order of names is the lexicographic order of code units. */
  lemma LessIsLexicographic(a: Text, b: Text)
    ensures Less(a, b) <==> UnitLess(a, b)
  {
    hide Less, DecidesAt;
    if Less(a, b) {
      var k := LessDecides(a, b);
    }
    if k: nat :| DecidesAt(a, b, k) {
      DecidesLess(a, b, k);
    }
  }

  // ---------- objects ----------

  predicate Sorted(ps: seq<Property>) {
    forall i, j :: 0 <= i < j < |ps| ==> Less(ps[i].name, ps[j].name)
  }

  predicate HasName(ps: seq<Property>, name: Text) {
    exists i :: 0 <= i < |ps| && ps[i].name == name
  }

  /** The value of the first property called `name`. */
  function Lookup(ps: seq<Property>, name: Text): Option<JSValue> {
    if ps == [] then None
    else if ps[0].name == name then Some(ps[0].value)
    else Lookup(ps[1..], name)
  }

  /** std::map::try_emplace (and emplace): keeps the order by name and the value already stored. */
  function TryEmplace(ps: seq<Property>, name: Text, value: JSValue): seq<Property> {
    if ps == [] then [Property(name, value)]
    else if ps[0].name == name then ps
    else if Less(name, ps[0].name) then [Property(name, value)] + ps
    else [ps[0]] + TryEmplace(ps[1..], name, value)
  }

  lemma {:induction false} SortedTail(ps: seq<Property>)
    requires Sorted(ps) && ps != []
    ensures Sorted(ps[1..])
    ensures forall i :: 0 <= i < |ps[1..]| ==> Less(ps[0].name, ps[1..][i].name)
  {
  }

  lemma {:induction false} SortedCons(p: Property, ps: seq<Property>)
    requires Sorted(ps)
    requires forall i :: 0 <= i < |ps| ==> Less(p.name, ps[i].name)
    ensures Sorted([p] + ps)
  {
    var s := [p] + ps;
    forall i, j | 0 <= i < j < |s| ensures Less(s[i].name, s[j].name) {
      assert s[j] == ps[j - 1];
      if i > 0 {
        assert s[i] == ps[i - 1];
      }
    }
  }

  lemma {:induction false} TryEmplaceNames(ps: seq<Property>, name: Text, value: JSValue, i: nat)
    requires i < |TryEmplace(ps, name, value)|
    ensures TryEmplace(ps, name, value)[i].name == name || HasName(ps, TryEmplace(ps, name, value)[i].name)
  {
    var r := TryEmplace(ps, name, value);
    if ps == [] {
    } else if ps[0].name == name {
    } else if Less(name, ps[0].name) {
      if i > 0 {
        assert r[i] == ps[i - 1];
      }
    } else if i > 0 {
      TryEmplaceNames(ps[1..], name, value, i - 1);
      if r[i].name != name {
        var k :| 0 <= k < |ps[1..]| && ps[1..][k].name == r[i].name;
        assert ps[k + 1].name == r[i].name;
      }
    } else {
      assert r[0] == ps[0];
    }
  }

  lemma {:induction false} TryEmplaceSorted(ps: seq<Property>, name: Text, value: JSValue)
    requires Sorted(ps)
    ensures Sorted(TryEmplace(ps, name, value))
  {
    if ps == [] {
    } else if ps[0].name == name {
    } else if Less(name, ps[0].name) {
      forall i | 0 <= i < |ps| ensures Less(name, ps[i].name) {
        if i > 0 {
          LessTransitive(name, ps[0].name, ps[i].name);
        }
      }
      SortedCons(Property(name, value), ps);
    } else {
      LessTotal(name, ps[0].name);
      SortedTail(ps);
      var tail := ps[1..];
      TryEmplaceSorted(tail, name, value);
      var r := TryEmplace(tail, name, value);
      forall i | 0 <= i < |r| ensures Less(ps[0].name, r[i].name) {
        TryEmplaceNames(tail, name, value, i);
      }
      SortedCons(ps[0], r);
    }
  }

  lemma {:induction false} LookupCons(p: Property, ps: seq<Property>, key: Text)
    ensures Lookup([p] + ps, key) == if p.name == key then Some(p.value) else Lookup(ps, key)
  {
    assert ([p] + ps)[1..] == ps;
  }

  lemma {:induction false} LookupIsHasName(ps: seq<Property>, key: Text)
    ensures Lookup(ps, key).Some? <==> HasName(ps, key)
  {
    if ps != [] {
      LookupIsHasName(ps[1..], key);
      if HasName(ps[1..], key) {
        var k :| 0 <= k < |ps[1..]| && ps[1..][k].name == key;
        assert ps[k + 1].name == key;
      }
      if HasName(ps, key) && ps[0].name != key {
        var k :| 0 <= k < |ps| && ps[k].name == key;
        assert ps[1..][k - 1].name == key;
      }
    }
  }

  lemma {:induction false} SmallerNameIsAbsent(ps: seq<Property>, name: Text)
    requires Sorted(ps) && ps != [] && Less(name, ps[0].name)
    ensures Lookup(ps, name) == None
  {
    LookupIsHasName(ps, name);
    if HasName(ps, name) {
      var k :| 0 <= k < |ps| && ps[k].name == name;
      if k > 0 {
        LessTransitive(name, ps[0].name, ps[k].name);
      }
      LessIrreflexive(name);
    }
  }

  /** An insertion into a map changes the looked-up value of an absent name only, and of no other name. */
  lemma {:induction false} TryEmplaceLookup(ps: seq<Property>, name: Text, value: JSValue, key: Text)
    requires Sorted(ps)
    ensures Lookup(TryEmplace(ps, name, value), key)
         == if key == name && Lookup(ps, name) == None then Some(value) else Lookup(ps, key)
  {
    if ps == [] {
      LookupCons(Property(name, value), [], key);
    } else if ps[0].name == name {
    } else if Less(name, ps[0].name) {
      SmallerNameIsAbsent(ps, name);
      LookupCons(Property(name, value), ps, key);
    } else {
      SortedTail(ps);
      TryEmplaceLookup(ps[1..], name, value, key);
      LookupCons(ps[0], TryEmplace(ps[1..], name, value), key);
    }
  }

  /** Two sorted property lists that answer every lookup alike are the same list. */
  lemma {:induction false} SortedExtensional(a: seq<Property>, b: seq<Property>)
    requires Sorted(a) && Sorted(b)
    requires forall k :: Lookup(a, k) == Lookup(b, k)
    ensures a == b
  {
    if a == [] || b == [] {
      var k := if a != [] then a[0].name else if b != [] then b[0].name else [];
      assert Lookup(a, k) == Lookup(b, k);
    } else {
      assert Lookup(a, a[0].name) == Lookup(b, a[0].name);
      assert Lookup(a, b[0].name) == Lookup(b, b[0].name);
      LessTotal(a[0].name, b[0].name);
      if Less(a[0].name, b[0].name) {
        SmallerNameIsAbsent(b, a[0].name);
      } else if Less(b[0].name, a[0].name) {
        SmallerNameIsAbsent(a, b[0].name);
      }
      assert a[0] == b[0];
      SortedTail(a);
      SortedTail(b);
      forall k ensures Lookup(a[1..], k) == Lookup(b[1..], k) {
        assert Lookup(a, k) == Lookup(b, k);
        if k == a[0].name {
          TailLacksHead(a);
          TailLacksHead(b);
        }
      }
      SortedExtensional(a[1..], b[1..]);
      assert a == [a[0]] + a[1..] && b == [b[0]] + b[1..];
    }
  }

  lemma {:induction false} TailLacksHead(ps: seq<Property>)
    requires Sorted(ps) && ps != []
    ensures Lookup(ps[1..], ps[0].name) == None
  {
    SortedTail(ps);
    if ps[1..] != [] {
      SmallerNameIsAbsent(ps[1..], ps[0].name);
    }
  }

  // ---------- well-formed values and the value a member list denotes ----------

  /** Every object in the value is a map: its names strictly ascend. */
  predicate WellFormed(v: JSValue) {
    match v
    case Object(ps) => Sorted(ps) && forall i :: 0 <= i < |ps| ==> WellFormed(ps[i].value)
    case Array(items) => forall i :: 0 <= i < |items| ==> WellFormed(items[i])
    case _ => true
  }

  /** In every object inside, the names ascend unit by unit. */
  ghost predicate NamesAscend(v: JSValue) {
    match v
    case Object(ps) =>
      && (forall i, j :: 0 <= i < j < |ps| ==> UnitLess(ps[i].name, ps[j].name))
      && forall i :: 0 <= i < |ps| ==> NamesAscend(ps[i].value)
    case Array(items) => forall i :: 0 <= i < |items| ==> NamesAscend(items[i])
    case _ => true
  }

  lemma {:induction false} WellFormedAscends(v: JSValue)
    ensures WellFormed(v) <==> NamesAscend(v)
  {
    hide Less, UnitLess;
    match v
    case Object(ps) =>
      forall i, j | 0 <= i < j < |ps| ensures Less(ps[i].name, ps[j].name) <==> UnitLess(ps[i].name, ps[j].name) {
        LessIsLexicographic(ps[i].name, ps[j].name);
      }
      forall i | 0 <= i < |ps| ensures WellFormed(ps[i].value) <==> NamesAscend(ps[i].value) {
        WellFormedAscends(ps[i].value);
      }
    case Array(items) =>
      forall i | 0 <= i < |items| ensures WellFormed(items[i]) <==> NamesAscend(items[i]) {
        WellFormedAscends(items[i]);
      }
    case _ =>
  }

  /** The map-based value of a tree whose member lists may be unsorted and may repeat names:
      of several members with one name the first counts. */
  function Canon(v: JSValue): JSValue
    decreases v, 1
  {
    match v
    case Object(ps) => Object(CanonProps(ps, []))
    case Array(items) => Array(CanonItems(items))
    case _ => v
  }

  function CanonItems(items: seq<JSValue>): seq<JSValue>
    decreases items, 0
  {
    if items == [] then [] else [Canon(items[0])] + CanonItems(items[1..])
  }

  function CanonProps(ps: seq<Property>, acc: seq<Property>): seq<Property>
    decreases ps, 0
  {
    if ps == [] then acc
    else CanonProps(ps[1..], TryEmplace(acc, ps[0].name, Canon(ps[0].value)))
  }

  lemma {:induction false} CanonIsWellFormed(v: JSValue)
    ensures WellFormed(Canon(v))
    decreases v, 1
  {
    match v
    case Object(ps) => CanonPropsWellFormed(ps, []);
    case Array(items) => CanonItemsWellFormed(items);
    case _ =>
  }

  lemma {:induction false} CanonItemsWellFormed(items: seq<JSValue>)
    ensures forall i :: 0 <= i < |CanonItems(items)| ==> WellFormed(CanonItems(items)[i])
    decreases items, 0
  {
    if items != [] {
      CanonIsWellFormed(items[0]);
      CanonItemsWellFormed(items[1..]);
    }
  }

  lemma {:induction false} CanonPropsWellFormed(ps: seq<Property>, acc: seq<Property>)
    requires Sorted(acc) && forall i :: 0 <= i < |acc| ==> WellFormed(acc[i].value)
    ensures WellFormed(Object(CanonProps(ps, acc)))
    decreases ps, 0
  {
    if ps != [] {
      CanonIsWellFormed(ps[0].value);
      var next := TryEmplace(acc, ps[0].name, Canon(ps[0].value));
      TryEmplaceSorted(acc, ps[0].name, Canon(ps[0].value));
      TryEmplaceKeeps(acc, ps[0].name, Canon(ps[0].value));
      CanonPropsWellFormed(ps[1..], next);
    }
  }

  lemma {:induction false} TryEmplaceKeeps(ps: seq<Property>, name: Text, value: JSValue)
    requires WellFormed(value)
    requires forall i :: 0 <= i < |ps| ==> WellFormed(ps[i].value)
    ensures forall i :: 0 <= i < |TryEmplace(ps, name, value)| ==> WellFormed(TryEmplace(ps, name, value)[i].value)
  {
    var r := TryEmplace(ps, name, value);
    if ps != [] && ps[0].name != name && !Less(name, ps[0].name) {
      TryEmplaceKeeps(ps[1..], name, value);
      forall i | 0 <= i < |r| ensures WellFormed(r[i].value) {
        assert i > 0 ==> r[i] == TryEmplace(ps[1..], name, value)[i - 1];
      }
    } else if ps != [] && ps[0].name != name {
      forall i | 0 <= i < |r| ensures WellFormed(r[i].value) {
        assert i > 0 ==> r[i] == ps[i - 1];
      }
    }
  }

  /** What an object of the result holds: at each name, the value of the first member with that name. */
  lemma {:induction false} CanonLookup(ps: seq<Property>, acc: seq<Property>, key: Text)
    requires Sorted(acc)
    ensures Lookup(CanonProps(ps, acc), key)
         == match Lookup(acc, key)
            case Some(v) => Some(v)
            case None => (match Lookup(ps, key) case Some(v) => Some(Canon(v)) case None => None)
  {
    if ps != [] {
      var v := Canon(ps[0].value);
      TryEmplaceSorted(acc, ps[0].name, v);
      TryEmplaceLookup(acc, ps[0].name, v, key);
      CanonLookup(ps[1..], TryEmplace(acc, ps[0].name, v), key);
    }
  }

  lemma {:induction false} TryEmplaceLast(ps: seq<Property>, name: Text, value: JSValue)
    requires forall i :: 0 <= i < |ps| ==> Less(ps[i].name, name)
    ensures TryEmplace(ps, name, value) == ps + [Property(name, value)]
  {
    hide Less;
    if ps != [] {
      var first := ps[0].name;
      assert Less(first, name);
      LessIrreflexive(name);
      if Less(name, first) {
        LessTransitive(name, first, name);
      }
      TryEmplaceLast(ps[1..], name, value);
      assert [ps[0]] + (ps[1..] + [Property(name, value)]) == ps + [Property(name, value)];
    }
  }

  /** On a value that is already made of maps nothing changes. */
  lemma {:induction false} CanonOfWellFormed(v: JSValue)
    requires WellFormed(v)
    ensures Canon(v) == v
    decreases v, 1
  {
    match v
    case Object(ps) =>
      CanonPropsOfSorted(ps, []);
      assert [] + ps == ps;
    case Array(items) => CanonItemsOfWellFormed(items);
    case _ =>
  }

  lemma {:induction false} CanonItemsOfWellFormed(items: seq<JSValue>)
    requires forall i :: 0 <= i < |items| ==> WellFormed(items[i])
    ensures CanonItems(items) == items
    decreases items, 0
  {
    if items != [] {
      CanonOfWellFormed(items[0]);
      CanonItemsOfWellFormed(items[1..]);
    }
  }

  lemma {:induction false} CanonPropsOfSorted(ps: seq<Property>, acc: seq<Property>)
    requires Sorted(acc + ps)
    requires forall i :: 0 <= i < |ps| ==> WellFormed(ps[i].value)
    ensures CanonProps(ps, acc) == acc + ps
    decreases ps, 0
  {
    if ps != [] {
      CanonOfWellFormed(ps[0].value);
      forall i | 0 <= i < |acc| ensures Less(acc[i].name, ps[0].name) {
        assert (acc + ps)[i] == acc[i] && (acc + ps)[|acc|] == ps[0];
      }
      TryEmplaceLast(acc, ps[0].name, ps[0].value);
      assert acc + [Property(ps[0].name, ps[0].value)] + ps[1..] == acc + ps;
      CanonPropsOfSorted(ps[1..], acc + [ps[0]]);
    }
  }
}
