/** Strict and loose equality of JSValues, deep copy, and the conversions loose equality goes through. */
module Equality {
  import opened JSValues

  // strtod on a whole trimmed text, rounding of an Int64 to a double, and the text of a finite double.
  datatype Numbers = Numbers(strtod: Text -> Option<Double>, round: I64 -> real, show: real -> Text)

  /** What is assumed of strtod in the C locale: no numeral holds a comma or a bracket. */
  ghost predicate PlainNumerals(rt: Numbers) {
    forall t :: rt.strtod(t).Some? ==> COMMA !in t && LBRACKET !in t
  }

  // ---------- text and number conversions ----------

  // [object Object]
  const OBJECT_TEXT: Text := [0x5B, 0x6F, 0x62, 0x6A, 0x65, 0x63, 0x74, 0x20, 0x4F, 0x62, 0x6A, 0x65, 0x63, 0x74, 0x5D]
  const NAN_TEXT: Text := [0x4E, 0x61, 0x4E]
  const INFINITY_TEXT: Text := [0x49, 0x6E, 0x66, 0x69, 0x6E, 0x69, 0x74, 0x79]

  function DoubleText(rt: Numbers, d: Double): Text {
    match d
    case NaN => NAN_TEXT
    case PosInf => INFINITY_TEXT
    case NegInf => [MINUS] + INFINITY_TEXT
    case Finite(r) => rt.show(r)
  }

  /** AsJSString: items of an array are joined by commas, at every depth. */
  function JSString(rt: Numbers, v: JSValue): Text
    decreases v, 1
  {
    match v
    case Null => NULL_TEXT
    case Object(_) => OBJECT_TEXT
    case Array(items) => Joined(rt, items)
    case String(s) => s
    case Boolean(b) => if b then TRUE_TEXT else FALSE_TEXT
    case Int64(i) => Decimal(i)
    case Number(d) => DoubleText(rt, d)
  }

  function Joined(rt: Numbers, items: seq<JSValue>): Text
    decreases items, 0
  {
    if items == [] then []
    else if |items| == 1 then JSString(rt, items[0])
    else Joined(rt, items[..|items| - 1]) + [COMMA] + JSString(rt, items[|items| - 1])
  }

  predicate IsBlank(c: Unit) {
    c == 0x20 || 0x09 <= c <= 0x0D
  }

  function TrimStart(t: Text): Text {
    if t != [] && IsBlank(t[0]) then TrimStart(t[1..]) else t
  }

  function TrimEnd(t: Text): Text {
    if t != [] && IsBlank(t[|t| - 1]) then TrimEnd(t[..|t| - 1]) else t
  }

  function Trim(t: Text): Text {
    TrimEnd(TrimStart(t))
  }

  function ToJSNumber(rt: Numbers, t: Text): Double {
    var s := Trim(t);
    if s == [] then Finite(0.0)
    else match rt.strtod(s)
      case Some(d) => d
      case None => NaN
  }

  /** AsJSNumber, with its shortcut by the size of an array. */
  function JSNumber(rt: Numbers, v: JSValue): Double {
    match v
    case Object(_) => NaN
    case Array(items) =>
      if |items| == 0 then Finite(0.0)
      else if |items| == 1 then ToJSNumber(rt, JSString(rt, items[0]))
      else NaN
    case String(s) => ToJSNumber(rt, s)
    case Boolean(b) => if b then Finite(1.0) else Finite(0.0)
    case Int64(i) => Finite(rt.round(i))
    case Number(d) => d
    case Null => Finite(0.0)
  }

  /** The stream writer inside AsJSString, with its loop. */
  method WriteJSString(rt: Numbers, stream: Text, v: JSValue) returns (out: Text)
    ensures out == stream + JSString(rt, v)
    decreases v
  {
    if v.Array? {
      out := stream;
      var start := true;
      assert stream + Joined(rt, v.items[..0]) == stream;
      for k := 0 to |v.items|
        invariant start == (k == 0)
        invariant out == stream + Joined(rt, v.items[..k])
      {
        if start {
          start := false;
        } else {
          out := out + [COMMA];
        }
        out := WriteJSString(rt, out, v.items[k]);
        var done := v.items[..k + 1];
        assert done[..k] == v.items[..k] && done[k] == v.items[k];
        assert k > 0 ==> out == stream + (Joined(rt, done[..k]) + [COMMA] + JSString(rt, done[k]));
        assert k == 0 ==> out == stream + JSString(rt, done[0]);
      }
      assert v.items[..|v.items|] == v.items;
    } else {
      out := stream + JSString(rt, v);
    }
  }

  // ---------- comparison ----------

  datatype Mode = Strict | Loose(rt: Numbers)

  predicate IsNumeric(v: JSValue) {
    v.Boolean? || v.Int64? || v.Number?
  }

  /** Equals (Strict) and JSEquals (Loose). */
  predicate Eq(m: Mode, a: JSValue, b: JSValue)
    decreases a, 1
  {
    if a.Type() == b.Type() then
      match a
      case Null => true
      case Object(ps) => EqProps(m, ps, b.props)
      case Array(items) => EqItems(m, items, b.items)
      case String(s) => s == b.str
      case Boolean(x) => x == b.b
      case Int64(i) => i == b.i
      case Number(d) => DoubleEq(d, b.d)
    else
      m.Loose? && !a.Null? && !b.Null?
      && if IsNumeric(a) || IsNumeric(b) then DoubleEq(JSNumber(m.rt, a), JSNumber(m.rt, b))
         else JSString(m.rt, a) == JSString(m.rt, b)
  }

  predicate EqItems(m: Mode, a: seq<JSValue>, b: seq<JSValue>)
    decreases a, 0
  {
    |a| == |b| && (a == [] || (Eq(m, a[0], b[0]) && EqItems(m, a[1..], b[1..])))
  }

  /** Both objects are walked side by side in the order of their names. */
  predicate EqProps(m: Mode, a: seq<Property>, b: seq<Property>)
    decreases a, 0
  {
    |a| == |b| && (a == [] || (a[0].name == b[0].name && Eq(m, a[0].value, b[0].value) && EqProps(m, a[1..], b[1..])))
  }

  method EqualsValue(m: Mode, a: JSValue, b: JSValue) returns (r: bool)
    ensures r == Eq(m, a, b)
    decreases a, 1
  {
    if a.Object? && b.Object? {
      r := EqualsObject(m, a.props, b.props);
    } else if a.Array? && b.Array? {
      r := EqualsArray(m, a.items, b.items);
    } else if a.Type() == b.Type() {
      match a
      case Null => r := true;
      case String(s) => r := s == b.str;
      case Boolean(x) => r := x == b.b;
      case Int64(i) => r := i == b.i;
      case Number(d) => r := DoubleEq(d, b.d);
    } else if m.Strict? || a.Null? || b.Null? {
      r := false;
    } else if IsNumeric(a) || IsNumeric(b) {
      r := DoubleEq(JSNumber(m.rt, a), JSNumber(m.rt, b));
    } else {
      r := JSString(m.rt, a) == JSString(m.rt, b);
    }
  }

  method EqualsArray(m: Mode, a: seq<JSValue>, b: seq<JSValue>) returns (r: bool)
    ensures r == EqItems(m, a, b)
    decreases a, 0
  {
    if |a| != |b| {
      return false;
    }
    for k := 0 to |a|
      invariant EqItems(m, a, b) == EqItems(m, a[k..], b[k..])
    {
      assert a[k..][1..] == a[k + 1..] && b[k..][1..] == b[k + 1..];
      var same := EqualsValue(m, a[k], b[k]);
      if !same {
        return false;
      }
    }
    return true;
  }

  method EqualsObject(m: Mode, a: seq<Property>, b: seq<Property>) returns (r: bool)
    ensures r == EqProps(m, a, b)
    decreases a, 0
  {
    if |a| != |b| {
      return false;
    }
    for k := 0 to |a|
      invariant EqProps(m, a, b) == EqProps(m, a[k..], b[k..])
    {
      assert a[k..][1..] == a[k + 1..] && b[k..][1..] == b[k + 1..];
      if a[k].name != b[k].name {
        return false;
      }
      var same := EqualsValue(m, a[k].value, b[k].value);
      if !same {
        return false;
      }
    }
    return true;
  }

  // ---------- laws ----------

  /** Both equalities are symmetric. */
  lemma {:induction false} EqSymmetric(m: Mode, a: JSValue, b: JSValue)
    ensures Eq(m, a, b) == Eq(m, b, a)
    decreases a, 1
  {
    if a.Type() == b.Type() {
      match a
      case Object(ps) => EqPropsSymmetric(m, ps, b.props);
      case Array(items) => EqItemsSymmetric(m, items, b.items);
      case _ =>
    }
  }

  lemma {:induction false} EqItemsSymmetric(m: Mode, a: seq<JSValue>, b: seq<JSValue>)
    ensures EqItems(m, a, b) == EqItems(m, b, a)
    decreases a, 0
  {
    if |a| == |b| && a != [] {
      EqSymmetric(m, a[0], b[0]);
      EqItemsSymmetric(m, a[1..], b[1..]);
    }
  }

  lemma {:induction false} EqPropsSymmetric(m: Mode, a: seq<Property>, b: seq<Property>)
    ensures EqProps(m, a, b) == EqProps(m, b, a)
    decreases a, 0
  {
    if |a| == |b| && a != [] {
      EqSymmetric(m, a[0].value, b[0].value);
      EqPropsSymmetric(m, a[1..], b[1..]);
    }
  }

  /** Strict equality is transitive. */
  lemma {:induction false} EqualsTransitive(a: JSValue, b: JSValue, c: JSValue)
    requires Eq(Strict, a, b) && Eq(Strict, b, c)
    ensures Eq(Strict, a, c)
    decreases a, 1
  {
    match a
    case Object(ps) => EqPropsTransitive(ps, b.props, c.props);
    case Array(items) => EqItemsTransitive(items, b.items, c.items);
    case _ =>
  }

  lemma {:induction false} EqItemsTransitive(a: seq<JSValue>, b: seq<JSValue>, c: seq<JSValue>)
    requires EqItems(Strict, a, b) && EqItems(Strict, b, c)
    ensures EqItems(Strict, a, c)
    decreases a, 0
  {
    if a != [] {
      EqualsTransitive(a[0], b[0], c[0]);
      EqItemsTransitive(a[1..], b[1..], c[1..]);
    }
  }

  lemma {:induction false} EqPropsTransitive(a: seq<Property>, b: seq<Property>, c: seq<Property>)
    requires EqProps(Strict, a, b) && EqProps(Strict, b, c)
    ensures EqProps(Strict, a, c)
    decreases a, 0
  {
    if a != [] {
      EqualsTransitive(a[0].value, b[0].value, c[0].value);
      EqPropsTransitive(a[1..], b[1..], c[1..]);
    }
  }

  /** Strict equality implies loose equality. */
  lemma {:induction false} StrictIsLoose(rt: Numbers, a: JSValue, b: JSValue)
    requires Eq(Strict, a, b)
    ensures Eq(Loose(rt), a, b)
    decreases a, 1
  {
    match a
    case Object(ps) => StrictIsLooseProps(rt, ps, b.props);
    case Array(items) => StrictIsLooseItems(rt, items, b.items);
    case _ =>
  }

  lemma {:induction false} StrictIsLooseItems(rt: Numbers, a: seq<JSValue>, b: seq<JSValue>)
    requires EqItems(Strict, a, b)
    ensures EqItems(Loose(rt), a, b)
    decreases a, 0
  {
    if a != [] {
      StrictIsLoose(rt, a[0], b[0]);
      StrictIsLooseItems(rt, a[1..], b[1..]);
    }
  }

  lemma {:induction false} StrictIsLooseProps(rt: Numbers, a: seq<Property>, b: seq<Property>)
    requires EqProps(Strict, a, b)
    ensures EqProps(Loose(rt), a, b)
    decreases a, 0
  {
    if a != [] {
      StrictIsLoose(rt, a[0].value, b[0].value);
      StrictIsLooseProps(rt, a[1..], b[1..]);
    }
  }

  // ---------- copies ----------

  predicate HasNaN(v: JSValue)
    decreases v
  {
    match v
    case Number(d) => d == NaN
    case Array(items) => exists i :: 0 <= i < |items| && HasNaN(items[i])
    case Object(ps) => exists i :: 0 <= i < |ps| && HasNaN(ps[i].value)
    case _ => false
  }

  lemma {:induction false} SelfEq(m: Mode, v: JSValue)
    ensures Eq(m, v, v) <==> !HasNaN(v)
    decreases v, 1
  {
    match v
    case Array(items) => SelfEqItems(m, items);
    case Object(ps) => SelfEqProps(m, ps);
    case _ =>
  }

  lemma {:induction false} SelfEqItems(m: Mode, items: seq<JSValue>)
    ensures EqItems(m, items, items) <==> !exists i :: 0 <= i < |items| && HasNaN(items[i])
    decreases items, 0
  {
    if items != [] {
      SelfEq(m, items[0]);
      SelfEqItems(m, items[1..]);
      if k :| 0 <= k < |items[1..]| && HasNaN(items[1..][k]) {
        assert HasNaN(items[k + 1]);
      }
      if k :| 0 < k < |items| && HasNaN(items[k]) {
        assert HasNaN(items[1..][k - 1]);
      }
    }
  }

  lemma {:induction false} SelfEqProps(m: Mode, ps: seq<Property>)
    ensures EqProps(m, ps, ps) <==> !exists i :: 0 <= i < |ps| && HasNaN(ps[i].value)
    decreases ps, 0
  {
    if ps != [] {
      SelfEq(m, ps[0].value);
      SelfEqProps(m, ps[1..]);
      if k :| 0 <= k < |ps[1..]| && HasNaN(ps[1..][k].value) {
        assert HasNaN(ps[k + 1].value);
      }
      if k :| 0 < k < |ps| && HasNaN(ps[k].value) {
        assert HasNaN(ps[1..][k - 1].value);
      }
    }
  }

  /** JSValue::Copy: a fresh map filled by try_emplace, a fresh array filled by push_back, at every depth. */
  method Copy(v: JSValue) returns (c: JSValue)
    ensures c == Canon(v)
    decreases v
  {
    match v
    case Object(ps) =>
      var props: seq<Property> := [];
      for k := 0 to |ps|
        invariant CanonProps(ps[k..], props) == CanonProps(ps, [])
      {
        assert ps[k..][1..] == ps[k + 1..];
        var x := Copy(ps[k].value);
        props := TryEmplace(props, ps[k].name, x);
      }
      c := Object(props);
    case Array(items) =>
      var copies: seq<JSValue> := [];
      for k := 0 to |items|
        invariant copies + CanonItems(items[k..]) == CanonItems(items)
      {
        assert items[k..][1..] == items[k + 1..];
        var x := Copy(items[k]);
        assert copies + [x] + CanonItems(items[k + 1..]) == copies + ([x] + CanonItems(items[k + 1..]));
        copies := copies + [x];
      }
      c := Array(copies);
    case _ => c := v;
  }

  /** A copy is the same value, and equals the original (either way of comparing) exactly when no NaN is in it. */
  lemma CopyEquals(m: Mode, v: JSValue)
    requires WellFormed(v)
    ensures Canon(v) == v && (Eq(m, v, Canon(v)) <==> !HasNaN(v))
  {
    CanonOfWellFormed(v);
    SelfEq(m, v);
  }

  // ---------- objects as maps ----------

  ghost predicate SameMap(m: Mode, a: seq<Property>, b: seq<Property>) {
    forall k :: match (Lookup(a, k), Lookup(b, k))
                case (Some(x), Some(y)) => Eq(m, x, y)
                case (None, None) => true
                case _ => false
  }

  /** Walking two objects side by side finds exactly whether they hold the same names with equal values. */
  lemma {:induction false} LockstepIsMapEquality(m: Mode, a: seq<Property>, b: seq<Property>)
    requires Sorted(a) && Sorted(b)
    ensures EqProps(m, a, b) <==> SameMap(m, a, b)
  {
    if a != [] && b != [] && a[0].name == b[0].name {
      SortedTail(a);
      SortedTail(b);
      LockstepIsMapEquality(m, a[1..], b[1..]);
      SameMapTail(m, a, b);
    } else if a != [] || b != [] {
      if a != [] && b != [] {
        LessTotal(a[0].name, b[0].name);
      }
      var k := if b == [] || (a != [] && Less(a[0].name, b[0].name)) then a[0].name else b[0].name;
      if b != [] && k != b[0].name {
        SmallerNameIsAbsent(b, k);
      }
      if a != [] && k != a[0].name {
        SmallerNameIsAbsent(a, k);
      }
      assert Lookup(a, k).Some? != Lookup(b, k).Some?;
    }
  }

  lemma SameMapTail(m: Mode, a: seq<Property>, b: seq<Property>)
    requires Sorted(a) && Sorted(b) && a != [] && b != [] && a[0].name == b[0].name
    ensures SameMap(m, a, b) <==> Eq(m, a[0].value, b[0].value) && SameMap(m, a[1..], b[1..])
  {
    hide Eq;
    TailLacksHead(a);
    TailLacksHead(b);
    var n := a[0].name;
    assert Lookup(a, n) == Some(a[0].value) && Lookup(b, n) == Some(b[0].value);
    assert forall k :: k != n ==> Lookup(a, k) == Lookup(a[1..], k) && Lookup(b, k) == Lookup(b[1..], k);
    if SameMap(m, a, b) {
      forall k ensures match (Lookup(a[1..], k), Lookup(b[1..], k))
                       case (Some(x), Some(y)) => Eq(m, x, y)
                       case (None, None) => true
                       case _ => false
      {
        assert k != n ==> Lookup(a, k) == Lookup(a[1..], k);
      }
    }
  }

  // ---------- containers compare as their text ----------

  lemma {:induction false} TrimStartKeeps(t: Text, c: Unit)
    requires c in t && !IsBlank(c)
    ensures c in TrimStart(t)
  {
    if t != [] && IsBlank(t[0]) {
      assert c in t[1..];
      TrimStartKeeps(t[1..], c);
    }
  }

  lemma {:induction false} TrimEndKeeps(t: Text, c: Unit)
    requires c in t && !IsBlank(c)
    ensures c in TrimEnd(t)
  {
    if t != [] && IsBlank(t[|t| - 1]) {
      assert c in t[..|t| - 1];
      TrimEndKeeps(t[..|t| - 1], c);
    }
  }

  // The blanks AsJSNumber trims: space, newline, return, tab, form feed and vertical tab.
  const TRIMMED: seq<int> := [0x20, 0x0A, 0x0D, 0x09, 0x0C, 0x0B]

  predicate AllTrimmed(t: Text) {
    forall i :: 0 <= i < |t| ==> t[i] in TRIMMED
  }

  lemma TrimmedUnit(c: Unit)
    ensures IsBlank(c) <==> c in TRIMMED
  {
  }

  lemma {:induction false} TrimStartSkips(p: Text, t: Text)
    requires AllTrimmed(p) && (t == [] || t[0] !in TRIMMED)
    ensures TrimStart(p + t) == t
  {
    if p == [] {
      assert p + t == t;
      if t != [] {
        TrimmedUnit(t[0]);
      }
    } else {
      assert (p + t)[0] == p[0] && (p + t)[1..] == p[1..] + t;
      TrimmedUnit(p[0]);
      TrimStartSkips(p[1..], t);
    }
  }

  lemma {:induction false} TrimEndSkips(t: Text, q: Text)
    requires AllTrimmed(q) && (t == [] || t[|t| - 1] !in TRIMMED)
    ensures TrimEnd(t + q) == t
  {
    if q == [] {
      assert t + q == t;
      if t != [] {
        TrimmedUnit(t[|t| - 1]);
      }
    } else {
      var s := t + q;
      assert s[|s| - 1] == q[|q| - 1] && s[..|s| - 1] == t + q[..|q| - 1];
      TrimmedUnit(q[|q| - 1]);
      TrimEndSkips(t, q[..|q| - 1]);
    }
  }

  /** A text is read as a number without the blanks at both its ends, and a blank text as zero. */
  lemma TextAsNumber(rt: Numbers, p: Text, t: Text, q: Text)
    requires AllTrimmed(p) && AllTrimmed(q)
    ensures t != [] && t[0] !in TRIMMED && t[|t| - 1] !in TRIMMED ==>
              JSNumber(rt, String(p + t + q)) == match rt.strtod(t) case Some(d) => d case None => NaN
    ensures JSNumber(rt, String(p)) == Finite(0.0)
  {
    TrimStartSkips(p, []);
    assert p + [] == p;
    if t != [] && t[0] !in TRIMMED && t[|t| - 1] !in TRIMMED {
      TrimStartSkips(p, t + q);
      assert p + (t + q) == p + t + q;
      TrimEndSkips(t, q);
      hide TrimStart, TrimEnd;
    }
  }

  /** So a text is loosely equal to a double exactly when it is a numeral of it, whatever blanks surround it. */
  lemma TextEqualsNumber(rt: Numbers, p: Text, t: Text, q: Text, d: Double)
    requires AllTrimmed(p) && AllTrimmed(q) && t != [] && t[0] !in TRIMMED && t[|t| - 1] !in TRIMMED
    ensures Eq(Loose(rt), String(p + t + q), Number(d)) <==> rt.strtod(t).Some? && DoubleEq(rt.strtod(t).value, d)
  {
    TextAsNumber(rt, p, t, q);
    hide JSNumber, JSString;
    assert JSNumber(rt, Number(d)) == d by { NumberIsItself(rt, d); }
  }

  lemma NumberIsItself(rt: Numbers, d: Double)
    ensures JSNumber(rt, Number(d)) == d
  {
  }

  lemma NotANumeral(rt: Numbers, t: Text, c: Unit)
    requires PlainNumerals(rt) && c in t && (c == COMMA || c == LBRACKET)
    ensures ToJSNumber(rt, t) == NaN
  {
    TrimStartKeeps(t, c);
    TrimEndKeeps(TrimStart(t), c);
  }

  /** The shortcut by size agrees with converting the comma-joined text. */
  lemma ContainerNumber(rt: Numbers, c: JSValue)
    requires PlainNumerals(rt) && c.IsContainer()
    ensures JSNumber(rt, c) == ToJSNumber(rt, JSString(rt, c))
  {
    if c.Object? {
      assert OBJECT_TEXT[0] == LBRACKET;
      NotANumeral(rt, OBJECT_TEXT, LBRACKET);
    } else if |c.items| >= 2 {
      var s, n := Joined(rt, c.items), |c.items| - 1;
      assert s == Joined(rt, c.items[..n]) + [COMMA] + JSString(rt, c.items[n]);
      assert COMMA in s;
      NotANumeral(rt, s, COMMA);
    }
  }

  /** A container compared with a value of another type compares as its text would. */
  lemma ContainersCompareAsText(rt: Numbers, c: JSValue, x: JSValue)
    requires PlainNumerals(rt) && c.IsContainer() && x.Type() != c.Type()
    ensures Eq(Loose(rt), c, x) == Eq(Loose(rt), String(JSString(rt, c)), x)
  {
    hide JSString, JSNumber, ToJSNumber, PlainNumerals, EqProps, EqItems;
    ContainerNumber(rt, c);
    TextConverts(rt, JSString(rt, c));
    if x.String? {
      TextConverts(rt, x.str);
    }
  }

  lemma TextConverts(rt: Numbers, t: Text)
    ensures JSString(rt, String(t)) == t && JSNumber(rt, String(t)) == ToJSNumber(rt, t)
  {
    hide ToJSNumber;
  }
}
