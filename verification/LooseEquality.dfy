/** When loose equality is transitive. */
module LooseEquality {
  import opened JSValues
  import opened Equality

  /** What is assumed of the C runtime beside PlainNumerals: numbers print without brackets, `false` is not a numeral,
      strtod reads the numeral of 2^53, and an Int64 is rounded to a double near it. */
  ghost predicate IeeeNumbers(rt: Numbers) {
    && PlainNumerals(rt)
    && (forall r :: LBRACKET !in rt.show(r))
    && rt.strtod(FALSE_TEXT) == None
    && rt.strtod(TWO_53_TEXT) == Some(Finite(TWO_53 as real))
    && RoundsToNearest(rt)
  }

  /** Small integers are kept apart, and 2^53 and 2^53 + 1 are not. */
  ghost predicate RoundsToNearest(rt: Numbers) {
    && rt.round(0) == 0.0 && rt.round(1) == 1.0
    && (forall i: I64 :: i <= -1 ==> rt.round(i) <= -1.0)
    && (forall i: I64 :: i >= 2 ==> rt.round(i) >= 2.0)
    && rt.round(TWO_53) == rt.round(TWO_53 + 1) == TWO_53 as real
  }

  const TWO_53: I64 := 0x20_0000_0000_0000

  // 9007199254740992
  const TWO_53_TEXT: Text :=
    [0x39, 0x30, 0x30, 0x37, 0x31, 0x39, 0x39, 0x32, 0x35, 0x34, 0x37, 0x34, 0x30, 0x39, 0x39, 0x32]

  // ---------- by values ----------

  lemma TextNumber(rt: Numbers, v: JSValue)
    requires PlainNumerals(rt) && (v.IsContainer() || v.String?)
    ensures JSNumber(rt, v) == ToJSNumber(rt, JSString(rt, v))
  {
    if v.IsContainer() {
      ContainerNumber(rt, v);
    }
  }

  /** Values of three different types: the only loss is between two texts that are equal to one number. */
  lemma LooseAcrossTypes(rt: Numbers, a: JSValue, b: JSValue, c: JSValue)
    requires PlainNumerals(rt) && Eq(Loose(rt), a, b) && Eq(Loose(rt), b, c)
    requires a.Type() != b.Type() && b.Type() != c.Type() && a.Type() != c.Type()
    ensures Eq(Loose(rt), a, c)
       <==> (IsNumeric(b) && !IsNumeric(a) && !IsNumeric(c) ==> JSString(rt, a) == JSString(rt, c))
  {
    if !IsNumeric(a) {
      TextNumber(rt, a);
    }
    if !IsNumeric(b) {
      TextNumber(rt, b);
    }
    if !IsNumeric(c) {
      TextNumber(rt, c);
    }
    hide JSString, JSNumber, ToJSNumber, PlainNumerals, EqItems, EqProps;
  }

  /** Two equal values of one type against a third of another: the only loss is between two arrays whose texts,
      or numbers, differ. */
  lemma LooseAdjacent(rt: Numbers, a: JSValue, b: JSValue, c: JSValue)
    requires Eq(Loose(rt), a, b) && Eq(Loose(rt), b, c) && a.Type() == b.Type() && b.Type() != c.Type()
    ensures Eq(Loose(rt), a, c)
       <==> (a.Array? ==> if IsNumeric(c) then JSNumber(rt, a) == JSNumber(rt, b) else JSString(rt, a) == JSString(rt, b))
  {
    if a.IsContainer() {
      hide Joined, ToJSNumber, EqItems, EqProps;
    } else {
      assert a == b;
    }
  }

  // ---------- by types ----------

  predicate Numeric(t: JSValueType) {
    t == BooleanType || t == Int64Type || t == DoubleType
  }

  /** The types for which equality of the outer values follows, whatever the values are. */
  predicate Safe(x: JSValueType, y: JSValueType, z: JSValueType) {
    if x == z then
      match x
      case StringType => !Numeric(y)
      case Int64Type => y == Int64Type || y == BooleanType || y == ObjectType || y == NullType
      case ObjectType => Numeric(y) || y == NullType
      case ArrayType => y == NullType
      case _ => true
    else if x == y then x != ArrayType || z == ObjectType || z == NullType
    else if y == z then z != ArrayType || x == ObjectType || x == NullType
    else !(Numeric(y) && ((x == StringType && z == ArrayType) || (x == ArrayType && z == StringType)))
  }

  ghost predicate TransitiveOn(rt: Numbers, x: JSValueType, y: JSValueType, z: JSValueType) {
    forall a: JSValue, b: JSValue, c: JSValue :: a.Type() == x && b.Type() == y && c.Type() == z && Eq(Loose(rt), a, b) && Eq(Loose(rt), b, c)
                      ==> Eq(Loose(rt), a, c)
  }

  // Number texts are not the text of an object.
  lemma NumberText(rt: Numbers, v: JSValue)
    requires IeeeNumbers(rt) && (IsNumeric(v) || v.Null?)
    ensures JSString(rt, v) != OBJECT_TEXT
  {
    hide RoundsToNearest, PlainNumerals;
    assert OBJECT_TEXT[0] == LBRACKET;
    match v
    case Int64(i) => DecimalStart(i);
    case Number(d) =>
      assert d.Finite? ==> LBRACKET !in rt.show(d.value);
    case _ =>
  }

  lemma {:induction false} DigitsStart(n: nat)
    ensures Digits(n) != [] && ZERO <= Digits(n)[0] <= ZERO + 9
  {
    if n >= 10 {
      DigitsStart(n / 10);
    }
  }

  lemma DecimalStart(i: int)
    ensures Decimal(i) != [] && Decimal(i)[0] != LBRACKET
  {
    DigitsStart(if i < 0 then -i else i);
  }

  lemma ObjectTextNumber(rt: Numbers)
    requires PlainNumerals(rt)
    ensures ToJSNumber(rt, OBJECT_TEXT) == NaN
  {
    assert OBJECT_TEXT[0] == LBRACKET;
    NotANumeral(rt, OBJECT_TEXT, LBRACKET);
  }

  lemma CommaBetween(rt: Numbers, items: seq<JSValue>)
    requires |items| >= 2
    ensures COMMA in Joined(rt, items)
  {
    var s := Joined(rt, items);
    assert s == Joined(rt, items[..|items| - 1]) + [COMMA] + JSString(rt, items[|items| - 1]);
  }

  lemma OneItem(rt: Numbers, items: seq<JSValue>)
    requires Joined(rt, items) == OBJECT_TEXT
    ensures |items| == 1 && JSString(rt, items[0]) == OBJECT_TEXT
  {
    assert COMMA !in OBJECT_TEXT;
    if |items| >= 2 {
      CommaBetween(rt, items);
    }
  }

  /** A value loosely equal to one that prints as an object prints as one too. */
  lemma {:induction false} ObjectTextSpreads(rt: Numbers, a: JSValue, b: JSValue)
    requires IeeeNumbers(rt) && Eq(Loose(rt), a, b) && JSString(rt, b) == OBJECT_TEXT
    ensures JSString(rt, a) == OBJECT_TEXT
  {
    if IsNumeric(b) || b.Null? {
      NumberText(rt, b);
    } else if a.Type() != b.Type() {
      TextNumber(rt, b);
      ObjectTextNumber(rt);
      hide JSString, ToJSNumber, IeeeNumbers, JSNumber;
    } else if a.Array? {
      OneItem(rt, b.items);
      ObjectTextSpreads(rt, a.items[0], b.items[0]);
      hide IeeeNumbers;
    }
  }

  /** Int64s that a boolean can equal are rounded exactly. */
  lemma SmallIntegers(rt: Numbers, i: I64, j: I64)
    requires IeeeNumbers(rt) && rt.round(i) == rt.round(j) && (rt.round(i) == 0.0 || rt.round(i) == 1.0)
    ensures i == j
  {
    SmallInteger(rt, i);
    SmallInteger(rt, j);
  }

  lemma SmallInteger(rt: Numbers, i: I64)
    requires IeeeNumbers(rt)
    ensures rt.round(i) == 0.0 <==> i == 0
    ensures rt.round(i) == 1.0 <==> i == 1
  {
    hide PlainNumerals;
    assert i <= -1 ==> rt.round(i) <= -1.0;
    assert i >= 2 ==> rt.round(i) >= 2.0;
  }

  lemma {:induction false} SafeIsTransitive(rt: Numbers, a: JSValue, b: JSValue, c: JSValue)
    requires IeeeNumbers(rt) && Safe(a.Type(), b.Type(), c.Type()) && Eq(Loose(rt), a, b) && Eq(Loose(rt), b, c)
    ensures Eq(Loose(rt), a, c)
  {
    if a.Type() == c.Type() {
      OuterSafe(rt, a, b, c);
    } else if a.Type() == b.Type() {
      AdjacentSafe(rt, a, b, c);
    } else if b.Type() == c.Type() {
      EqSymmetric(Loose(rt), a, b);
      EqSymmetric(Loose(rt), b, c);
      AdjacentSafe(rt, c, b, a);
      EqSymmetric(Loose(rt), a, c);
    } else {
      DistinctSafe(rt, a, b, c);
    }
  }

  lemma SameScalar(m: Mode, a: JSValue, b: JSValue)
    requires Eq(m, a, b) && a.Type() == b.Type() && !a.IsContainer()
    ensures a == b
  {
  }

  lemma OuterSafe(rt: Numbers, a: JSValue, b: JSValue, c: JSValue)
    requires IeeeNumbers(rt) && Safe(a.Type(), b.Type(), c.Type()) && Eq(Loose(rt), a, b) && Eq(Loose(rt), b, c)
    requires a.Type() == c.Type()
    ensures Eq(Loose(rt), a, c)
  {
    hide IeeeNumbers, JSString, ToJSNumber, EqItems, EqProps;
    if a.Type() == b.Type() {
      SameScalar(Loose(rt), a, b);
    } else if a.Int64? {
      if b.Boolean? {
        SmallIntegers(rt, a.i, c.i);
      }
    } else if a.String? {
      TextConverts(rt, a.str);
      TextConverts(rt, c.str);
      hide JSNumber;
    } else if a.Boolean? {
      ThroughNumber(rt, a, b, c);
    } else if a.Number? {
      ThroughNumber(rt, a, b, c);
    }
  }

  lemma ThroughNumber(rt: Numbers, a: JSValue, b: JSValue, c: JSValue)
    requires Eq(Loose(rt), a, b) && Eq(Loose(rt), b, c) && a.Type() == c.Type() != b.Type() && (a.Boolean? || a.Number?)
    ensures a == c && Eq(Loose(rt), a, c)
  {
    hide JSString, ToJSNumber, EqItems, EqProps;
  }

  lemma AdjacentSafe(rt: Numbers, a: JSValue, b: JSValue, c: JSValue)
    requires IeeeNumbers(rt) && Safe(a.Type(), b.Type(), c.Type()) && Eq(Loose(rt), a, b) && Eq(Loose(rt), b, c)
    requires a.Type() == b.Type() != c.Type()
    ensures Eq(Loose(rt), a, c)
  {
    hide IeeeNumbers, Joined, ToJSNumber, EqItems, EqProps;
    LooseAdjacent(rt, a, b, c);
    if a.Array? && c.Object? {
      ObjectTextSpreads(rt, a, b);
    }
  }

  lemma PlainIeee(rt: Numbers)
    requires IeeeNumbers(rt)
    ensures PlainNumerals(rt)
  {
  }

  lemma DistinctSafe(rt: Numbers, a: JSValue, b: JSValue, c: JSValue)
    requires IeeeNumbers(rt) && Safe(a.Type(), b.Type(), c.Type()) && Eq(Loose(rt), a, b) && Eq(Loose(rt), b, c)
    requires a.Type() != b.Type() && b.Type() != c.Type() && a.Type() != c.Type()
    ensures Eq(Loose(rt), a, c)
  {
    hide IeeeNumbers, Joined, ToJSNumber, EqItems, EqProps;
    LooseAcrossTypes(rt, a, b, c) by { PlainIeee(rt); }
    hide JSString, JSNumber;
  }

  // ---------- every other combination of types fails ----------

  // A value of a numeric type that is zero.
  function Zero(t: JSValueType): JSValue {
    match t
    case BooleanType => Boolean(false)
    case Int64Type => Int64(0)
    case _ => Number(Finite(0.0))
  }

  const EMPTY: JSValue := String([])
  const BLANK: JSValue := String([0x20])
  const NO_PROPS: JSValue := Object([])
  const ONE_PROP: JSValue := Object([Property([], Null)])

  function Boxed(v: JSValue): JSValue {
    Array([v])
  }

  function Named(v: JSValue): JSValue {
    Object([Property([], v)])
  }

  ghost predicate Breaks(rt: Numbers, a: JSValue, b: JSValue, c: JSValue) {
    && Eq(Loose(rt), a, b) && Eq(Loose(rt), b, c) && !Eq(Loose(rt), a, c)
    && WellFormed(a) && WellFormed(b) && WellFormed(c)
  }

  lemma BreaksBackwards(rt: Numbers, a: JSValue, b: JSValue, c: JSValue)
    requires Breaks(rt, a, b, c)
    ensures Breaks(rt, c, b, a)
  {
    EqSymmetric(Loose(rt), a, b);
    EqSymmetric(Loose(rt), b, c);
    EqSymmetric(Loose(rt), a, c);
  }

  lemma EmptyIsZero(rt: Numbers)
    ensures ToJSNumber(rt, []) == ToJSNumber(rt, [0x20]) == Finite(0.0)
  {
    assert TrimStart([0x20]) == TrimStart([]) == [];
  }

  lemma ZeroNumber(rt: Numbers, t: JSValueType)
    requires IeeeNumbers(rt) && Numeric(t)
    ensures Zero(t).Type() == t && JSNumber(rt, Zero(t)) == Finite(0.0)
  {
    hide IeeeNumbers;
    RoundZero(rt);
    hide ToJSNumber, JSString;
  }

  lemma RoundZero(rt: Numbers)
    requires IeeeNumbers(rt)
    ensures rt.round(0) == 0.0
  {
    hide PlainNumerals;
  }

  // What the small texts and arrays print and convert to.
  lemma SmallFacts(rt: Numbers)
    ensures JSNumber(rt, EMPTY) == JSNumber(rt, BLANK) == JSNumber(rt, Array([])) == JSNumber(rt, Boxed(EMPTY)) == Finite(0.0)
    ensures JSString(rt, EMPTY) == JSString(rt, Array([])) == JSString(rt, Boxed(EMPTY)) == []
    ensures JSString(rt, BLANK) == [0x20] && JSString(rt, Boxed(Boolean(false))) == FALSE_TEXT
    ensures JSNumber(rt, Boxed(Boolean(false))) == ToJSNumber(rt, FALSE_TEXT)
    ensures EMPTY.Type() == BLANK.Type() == StringType && Boxed(EMPTY).Type() == ArrayType
  {
    EmptyIsZero(rt);
    hide ToJSNumber;
  }

  /** Two texts through a number: "" and " " through zero. */
  lemma TextsThroughNumber(rt: Numbers, t: JSValueType)
    requires IeeeNumbers(rt) && Numeric(t)
    ensures Breaks(rt, EMPTY, Zero(t), BLANK)
  {
    hide IeeeNumbers, JSNumber, JSString, EqItems, EqProps;
    SmallFacts(rt);
    ZeroNumber(rt, t);
  }

  /** A text and an array through a number: " " and [] through zero. */
  lemma TextAndArrayThroughNumber(rt: Numbers, t: JSValueType)
    requires IeeeNumbers(rt) && Numeric(t)
    ensures Breaks(rt, BLANK, Zero(t), Array([]))
  {
    hide IeeeNumbers, JSNumber, JSString, EqItems, EqProps;
    SmallFacts(rt);
    ZeroNumber(rt, t);
  }

  /** Two arrays through a number or a text: [] and [""] through zero or "". */
  lemma ArraysThrough(rt: Numbers, t: JSValueType)
    requires IeeeNumbers(rt) && (Numeric(t) || t == StringType)
    ensures Breaks(rt, Array([]), if Numeric(t) then Zero(t) else EMPTY, Boxed(EMPTY))
  {
    hide IeeeNumbers, JSNumber, JSString, EqProps;
    SmallFacts(rt);
    if Numeric(t) {
      ZeroNumber(rt, t);
    }
  }

  /** Two objects through their text, two arrays of objects through an object. */
  lemma ObjectsThroughText(rt: Numbers)
    ensures Breaks(rt, NO_PROPS, String(OBJECT_TEXT), ONE_PROP)
    ensures Breaks(rt, NO_PROPS, Boxed(NO_PROPS), ONE_PROP)
    ensures Breaks(rt, Boxed(NO_PROPS), NO_PROPS, Boxed(ONE_PROP))
  {
    hide ToJSNumber;
    assert JSString(rt, Boxed(NO_PROPS)) == JSString(rt, Boxed(ONE_PROP)) == OBJECT_TEXT;
  }

  /** Two arrays that are equal item by item, of which one prints as a third value: [false] and [""] against "" or zero. */
  lemma EqualArraysDiffer(rt: Numbers, t: JSValueType)
    requires IeeeNumbers(rt) && (Numeric(t) || t == StringType)
    ensures Breaks(rt, Boxed(Boolean(false)), Boxed(EMPTY), if Numeric(t) then Zero(t) else EMPTY)
  {
    hide IeeeNumbers, JSNumber, JSString, ToJSNumber, EqProps;
    SmallFacts(rt);
    FalseIsNoNumeral(rt);
    EqualBoxes(rt);
    hide EqItems;
    if Numeric(t) {
      ZeroNumber(rt, t);
    }
  }

  lemma EqualBoxes(rt: Numbers)
    ensures Eq(Loose(rt), Boxed(Boolean(false)), Boxed(EMPTY))
  {
    SmallFacts(rt);
    hide ToJSNumber, JSString;
    assert Eq(Loose(rt), Boolean(false), EMPTY);
  }

  lemma FalseIsNoNumeral(rt: Numbers)
    requires IeeeNumbers(rt)
    ensures ToJSNumber(rt, FALSE_TEXT) == NaN
  {
    hide PlainNumerals, RoundsToNearest;
    assert Trim(FALSE_TEXT) == FALSE_TEXT;
  }

  /** The same one level down: [[]], [false] and [" "], and so for objects. */
  lemma NestedBreaks(rt: Numbers)
    ensures Breaks(rt, Boxed(Array([])), Boxed(Boolean(false)), Boxed(BLANK))
    ensures Breaks(rt, Named(Array([])), Named(Boolean(false)), Named(BLANK))
  {
    EmptyIsZero(rt);
    hide ToJSNumber;
  }

  /** Two Int64s that round to one double, through that double, its numeral, or an array of the numeral. */
  lemma IntegersThrough(rt: Numbers)
    requires IeeeNumbers(rt)
    ensures Breaks(rt, Int64(TWO_53), Number(Finite(TWO_53 as real)), Int64(TWO_53 + 1))
    ensures Breaks(rt, Int64(TWO_53), String(TWO_53_TEXT), Int64(TWO_53 + 1))
    ensures Breaks(rt, Int64(TWO_53), Boxed(String(TWO_53_TEXT)), Int64(TWO_53 + 1))
  {
    hide Breaks, IeeeNumbers, ToJSNumber, JSNumber, JSString;
    TwoFacts(rt);
    var b := Number(Finite(TWO_53 as real));
    NumberOf(rt, b);
    IntegersBreak(rt, b);
    NumberOf(rt, String(TWO_53_TEXT));
    IntegersBreak(rt, String(TWO_53_TEXT));
    NumberOf(rt, Boxed(String(TWO_53_TEXT)));
    IntegersBreak(rt, Boxed(String(TWO_53_TEXT)));
  }

  lemma NumberOf(rt: Numbers, b: JSValue)
    ensures b.Number? ==> JSNumber(rt, b) == b.d
    ensures b.String? ==> JSNumber(rt, b) == ToJSNumber(rt, b.str)
    ensures b == Boxed(String(TWO_53_TEXT)) ==> JSNumber(rt, b) == ToJSNumber(rt, TWO_53_TEXT) && WellFormed(b)
  {
    hide ToJSNumber;
  }

  lemma IntegersBreak(rt: Numbers, b: JSValue)
    requires rt.round(TWO_53) == rt.round(TWO_53 + 1) == TWO_53 as real
    requires b.Type() != Int64Type && b.Type() != NullType && JSNumber(rt, b) == Finite(TWO_53 as real) && WellFormed(b)
    ensures Breaks(rt, Int64(TWO_53), b, Int64(TWO_53 + 1))
  {
    assert JSNumber(rt, Int64(TWO_53)) == JSNumber(rt, Int64(TWO_53 + 1)) == Finite(TWO_53 as real);
    hide JSNumber, JSString, EqItems, EqProps, WellFormed;
  }

  lemma TwoFacts(rt: Numbers)
    requires IeeeNumbers(rt)
    ensures rt.round(TWO_53) == rt.round(TWO_53 + 1) == TWO_53 as real
    ensures ToJSNumber(rt, TWO_53_TEXT) == Finite(TWO_53 as real)
  {
    hide PlainNumerals;
    var t := TWO_53_TEXT;
    assert !IsBlank(t[0]) && !IsBlank(t[|t| - 1]);
    assert Trim(t) == t;
  }

  lemma UnsafeBreaks(rt: Numbers, x: JSValueType, y: JSValueType, z: JSValueType) returns (a: JSValue, b: JSValue, c: JSValue)
    requires IeeeNumbers(rt) && !Safe(x, y, z)
    ensures a.Type() == x && b.Type() == y && c.Type() == z && Breaks(rt, a, b, c)
  {
    hide Breaks, IeeeNumbers;
    if x == z {
      a, b, c := OuterBreaks(rt, x, y);
    } else if x == y {
      EqualArraysDiffer(rt, z);
      a, b, c := Boxed(Boolean(false)), Boxed(EMPTY), if Numeric(z) then Zero(z) else EMPTY;
    } else if y == z {
      EqualArraysDiffer(rt, x);
      a, b, c := if Numeric(x) then Zero(x) else EMPTY, Boxed(EMPTY), Boxed(Boolean(false));
      BreaksBackwards(rt, c, b, a);
    } else {
      TextAndArrayThroughNumber(rt, y);
      BreaksBackwards(rt, BLANK, Zero(y), Array([]));
      b := Zero(y);
      a, c := if x == StringType then BLANK else Array([]), if x == StringType then Array([]) else BLANK;
    }
  }

  lemma OuterBreaks(rt: Numbers, x: JSValueType, y: JSValueType) returns (a: JSValue, b: JSValue, c: JSValue)
    requires IeeeNumbers(rt) && !Safe(x, y, x)
    ensures a.Type() == x && b.Type() == y && c.Type() == x && Breaks(rt, a, b, c)
  {
    hide Breaks, IeeeNumbers;
    ObjectsThroughText(rt);
    NestedBreaks(rt);
    IntegersThrough(rt);
    if x == StringType {
      TextsThroughNumber(rt, y);
      a, b, c := EMPTY, Zero(y), BLANK;
    } else if x == Int64Type {
      a, c := Int64(TWO_53), Int64(TWO_53 + 1);
      b := if y == DoubleType then Number(Finite(TWO_53 as real))
           else if y == StringType then String(TWO_53_TEXT) else Boxed(String(TWO_53_TEXT));
    } else if x == y {
      if x == ArrayType {
        a, b, c := Boxed(Array([])), Boxed(Boolean(false)), Boxed(BLANK);
      } else {
        a, b, c := Named(Array([])), Named(Boolean(false)), Named(BLANK);
      }
    } else if x == ObjectType {
      a, b, c := NO_PROPS, if y == StringType then String(OBJECT_TEXT) else Boxed(NO_PROPS), ONE_PROP;
    } else if y == ObjectType {
      a, b, c := Boxed(NO_PROPS), NO_PROPS, Boxed(ONE_PROP);
    } else {
      ArraysThrough(rt, y);
      a, b, c := Array([]), if Numeric(y) then Zero(y) else EMPTY, Boxed(EMPTY);
    }
  }

  lemma NotTransitive(rt: Numbers, a: JSValue, b: JSValue, c: JSValue)
    requires Breaks(rt, a, b, c)
    ensures !TransitiveOn(rt, a.Type(), b.Type(), c.Type())
  {
    hide Eq, WellFormed;
  }

  lemma SafeHolds(rt: Numbers, x: JSValueType, y: JSValueType, z: JSValueType)
    requires IeeeNumbers(rt) && Safe(x, y, z)
    ensures TransitiveOn(rt, x, y, z)
  {
    hide Eq, IeeeNumbers, Safe;
    forall a: JSValue, b: JSValue, c: JSValue
      | a.Type() == x && b.Type() == y && c.Type() == z && Eq(Loose(rt), a, b) && Eq(Loose(rt), b, c)
      ensures Eq(Loose(rt), a, c)
    {
      SafeIsTransitive(rt, a, b, c);
    }
  }

  /** For every three types: JSEquals is transitive on values of these types if and only if the types are safe. */
  lemma LooseIsTransitiveExactly(rt: Numbers, x: JSValueType, y: JSValueType, z: JSValueType)
    requires IeeeNumbers(rt)
    ensures TransitiveOn(rt, x, y, z) <==> Safe(x, y, z)
  {
    hide TransitiveOn, IeeeNumbers, Safe, Breaks;
    if Safe(x, y, z) {
      SafeHolds(rt, x, y, z);
    } else {
      var a, b, c := UnsafeBreaks(rt, x, y, z);
      NotTransitive(rt, a, b, c);
    }
  }

  // ---------- at every depth ----------

  /** The types are safe wherever the three values are walked together. */
  predicate SafeChain(a: JSValue, b: JSValue, c: JSValue) {
    if a.Array? && b.Array? && c.Array? then
      |a.items| == |b.items| == |c.items|
      && forall i :: 0 <= i < |a.items| ==> SafeChain(a.items[i], b.items[i], c.items[i])
    else if a.Object? && b.Object? && c.Object? then
      |a.props| == |b.props| == |c.props|
      && forall i :: 0 <= i < |a.props| ==> SafeChain(a.props[i].value, b.props[i].value, c.props[i].value)
    else Safe(a.Type(), b.Type(), c.Type())
  }

  /** Containers of safe values: JSEquals is transitive on them too. */
  lemma {:induction false} LooseIsTransitiveInside(rt: Numbers, a: JSValue, b: JSValue, c: JSValue)
    requires IeeeNumbers(rt) && SafeChain(a, b, c) && Eq(Loose(rt), a, b) && Eq(Loose(rt), b, c)
    ensures Eq(Loose(rt), a, c)
    decreases a, 1
  {
    hide IeeeNumbers, Safe;
    if a.Array? && b.Array? && c.Array? {
      ItemsTransitive(rt, a.items, b.items, c.items);
    } else if a.Object? && b.Object? && c.Object? {
      PropsTransitive(rt, a.props, b.props, c.props);
    } else {
      SafeIsTransitive(rt, a, b, c);
    }
  }

  lemma {:induction false} ItemsTransitive(rt: Numbers, a: seq<JSValue>, b: seq<JSValue>, c: seq<JSValue>)
    requires IeeeNumbers(rt) && EqItems(Loose(rt), a, b) && EqItems(Loose(rt), b, c) && |a| == |b| == |c|
    requires forall i :: 0 <= i < |a| ==> SafeChain(a[i], b[i], c[i])
    ensures EqItems(Loose(rt), a, c)
    decreases a, 0
  {
    hide IeeeNumbers, SafeChain, Eq;
    if a != [] {
      LooseIsTransitiveInside(rt, a[0], b[0], c[0]);
      ItemsTransitive(rt, a[1..], b[1..], c[1..]);
    }
  }

  lemma {:induction false} PropsTransitive(rt: Numbers, a: seq<Property>, b: seq<Property>, c: seq<Property>)
    requires IeeeNumbers(rt) && EqProps(Loose(rt), a, b) && EqProps(Loose(rt), b, c) && |a| == |b| == |c|
    requires forall i :: 0 <= i < |a| ==> SafeChain(a[i].value, b[i].value, c[i].value)
    ensures EqProps(Loose(rt), a, c)
    decreases a, 0
  {
    hide IeeeNumbers, SafeChain, Eq;
    if a != [] {
      LooseIsTransitiveInside(rt, a[0].value, b[0].value, c[0].value);
      PropsTransitive(rt, a[1..], b[1..], c[1..]);
    }
  }
}
