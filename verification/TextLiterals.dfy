/** The texts AsJSString and the log printer produce, as literals and laws that do not name their own bodies. */
module TextLiterals {
  import opened JSValues
  import opened Equality
  import opened LooseEquality
  import opened LogWriters
  import L = Literals

  // ---------- AsJSString ----------

  lemma ScalarTexts(rt: Numbers)
    ensures JSString(rt, Null) == L.Units("null") && NULL_TEXT == L.Units("null")
    ensures JSString(rt, Boolean(true)) == L.Units("true") && JSString(rt, Boolean(false)) == L.Units("false")
    ensures JSString(rt, Number(NaN)) == L.Units("NaN")
    ensures JSString(rt, Number(PosInf)) == L.Units("Infinity") && JSString(rt, Number(NegInf)) == L.Units("-Infinity")
  {
  }

  lemma ObjectText(rt: Numbers, ps: seq<Property>)
    ensures JSString(rt, Object(ps)) == L.Units("[object Object]")
  {
    assert OBJECT_TEXT == L.Units("[object Object]");
  }

  /** One item is printed as it is, an empty array as nothing, and two parts of an array with one comma between them. */
  lemma {:induction false} ArrayText(rt: Numbers, a: seq<JSValue>, b: seq<JSValue>)
    ensures JSString(rt, Array([])) == []
    ensures |a| == 1 ==> JSString(rt, Array(a)) == JSString(rt, a[0])
    ensures a != [] && b != [] ==>
              JSString(rt, Array(a + b)) == JSString(rt, Array(a)) + L.Units(",") + JSString(rt, Array(b))
    decreases |b|
  {
    assert L.Units(",") == [COMMA];
    hide L.Units;
    if a != [] && b != [] {
      var front, last := b[..|b| - 1], b[|b| - 1];
      var all := a + b;
      assert all[..|all| - 1] == a + front && all[|all| - 1] == last;
      if front == [] {
        assert a + front == a && b == [last];
      } else {
        ArrayText(rt, a, front);
        assert Joined(rt, all) == Joined(rt, a + front) + [COMMA] + JSString(rt, last);
        assert Joined(rt, b) == Joined(rt, front) + [COMMA] + JSString(rt, last);
      }
    }
  }

  // ---------- loose equality between scalars ----------

  /** Null is equal to null only, strictly and loosely. */
  lemma NullEqualsNull(m: Mode, x: JSValue)
    ensures Eq(m, Null, x) <==> x.Null?
  {
  }

  /** AsJSNumber of values without a text: null is zero, and so is the empty array; an object is no number. */
  lemma NumberLiterals(rt: Numbers, ps: seq<Property>, d: Double)
    ensures JSNumber(rt, Null) == JSNumber(rt, Array([])) == JSNumber(rt, Boolean(false)) == Finite(0.0)
    ensures JSNumber(rt, Boolean(true)) == Finite(1.0) && JSNumber(rt, Object(ps)) == NaN && JSNumber(rt, Number(d)) == d
  {
  }

  /** A boolean is loosely equal to the integers one and zero, and to the doubles one and zero. */
  lemma BooleanEqualsNumber(rt: Numbers, b: bool, i: I64, d: Double)
    requires IeeeNumbers(rt)
    ensures Eq(Loose(rt), Boolean(b), Int64(i)) <==> i == if b then 1 else 0
    ensures Eq(Loose(rt), Boolean(b), Number(d)) <==> d == Finite(if b then 1.0 else 0.0)
  {
    SmallInteger(rt, i);
    hide IeeeNumbers;
  }

  /** An integer is loosely equal to the double it is rounded to, and an object to no number. */
  lemma IntegerEqualsNumber(rt: Numbers, i: I64, d: Double, ps: seq<Property>)
    ensures Eq(Loose(rt), Int64(i), Number(d)) <==> d == Finite(rt.round(i))
    ensures !Eq(Loose(rt), Object(ps), Number(d)) && !Eq(Loose(rt), Object(ps), Int64(i)) && !Eq(Loose(rt), Object(ps), Boolean(true))
  {
  }

  // ---------- the log printer ----------

  /** Two spaces for each level. */
  lemma {:induction false} IndentText(n: nat)
    ensures |Indent(n)| == 2 * n && forall i :: 0 <= i < |Indent(n)| ==> Indent(n)[i] == ' ' as int
  {
    if n > 0 {
      IndentText(n - 1);
    }
  }

  /** The stream enters hex mode exactly at the characters that are printed as \u and four digits, and those are the control
      characters without an escape letter. */
  lemma HexModeStarts(c: Unit)
    ensures NeedsHex(c) <==> |LogChar(c)| == 6
    ensures NeedsHex(c) <==> c < 32 && c !in [0x08, 0x09, 0x0A, 0x0C, 0x0D]
  {
  }

  /** Hex mode prints the numeral of an integer, of a negative one that of its 64-bit pattern. */
  lemma HexIntegerText(i: I64)
    ensures var t := IntText(i, true);
            L.AllDigits(16, t) && L.NumeralValue(16, t) == (if i < 0 then i + 18446744073709551616 else i)
  {
    HexTextValue(if i < 0 then i + 0x1_0000_0000_0000_0000 else i);
  }

  lemma {:induction false} HexTextValue(n: nat)
    ensures L.AllDigits(16, HexText(n)) && L.NumeralValue(16, HexText(n)) == n
  {
    var t := HexText(n);
    if n < 16 {
      assert t[..0] == [];
    } else {
      HexTextValue(n / 16);
      assert t[..|t| - 1] == HexText(n / 16) && t[|t| - 1] == HexUnit(n % 16);
    }
  }

  function Spaces(m: nat): seq<int> {
    seq(m, _ => ' ' as int)
  }

  lemma LineText(n: nat)
    ensures Line(n) == L.Units("\n") + Spaces(2 * n)
  {
    IndentText(n);
    assert Indent(n) == Spaces(2 * n);
    assert L.Units("\n") == [LF];
  }

  lemma SeparatorText(start: bool)
    ensures Separator(start) == if start then [] else L.Units(",")
  {
    assert L.Units(",") == [COMMA];
  }

  /** Empty containers. */
  lemma EmptyLayout(nums: Numbers, n: nat, hex: bool)
    ensures LogValue(nums, Array([]), n, hex) == Log(L.Units("[]"), hex)
    ensures LogValue(nums, Object([]), n, hex) == Log(L.Units("{}"), hex)
  {
    assert L.Units("[]") == [LBRACKET, RBRACKET] && L.Units("{}") == [LBRACE, RBRACE];
  }

  /** Brackets around the lines of the items, the closing one on a line of its own. */
  lemma ContainerLayout(nums: Numbers, items: seq<JSValue>, ps: seq<Property>, n: nat, hex: bool)
    ensures items != [] ==>
              LogValue(nums, Array(items), n, hex).text
              == L.Units("[") + LogItems(nums, items, n + 1, hex).text + L.Units("\n") + Spaces(2 * n) + L.Units("]")
    ensures ps != [] ==>
              LogValue(nums, Object(ps), n, hex).text
              == L.Units("{") + LogProps(nums, ps, n + 1, hex).text + L.Units("\n") + Spaces(2 * n) + L.Units("}")
  {
    hide LogItems, LogProps, Line;
    LineText(n);
    assert L.Units("[") == [LBRACKET] && L.Units("]") == [RBRACKET] && L.Units("{") == [LBRACE] && L.Units("}") == [RBRACE];
    hide L.Units;
  }

  // A line break inside a longer text.
  lemma LineInside(a: Text, b: Text, c: seq<int>, d: seq<int>, e: Text)
    requires b == c + d
    ensures a + b + e == a + c + d + e
  {
  }

  /** Each item on a line of its own, indented by two spaces for each level, a comma before every line but the first. */
  lemma ItemLayout(nums: Numbers, front: seq<JSValue>, x: JSValue, n: nat, hex: bool)
    ensures var l := LogItems(nums, front, n, hex);
            LogItems(nums, front + [x], n, hex).text
            == l.text + (if front == [] then [] else L.Units(",")) + L.Units("\n") + Spaces(2 * n) + LogValue(nums, x, n, l.hex).text
  {
    hide LogValue, LogItems, Line, Separator, L.Units, Spaces;
    var l := LogItems(nums, front, n, hex);
    LogItemsAppend(nums, front, x, n, hex);
    LineText(n);
    SeparatorText(front == []);
    LineInside(l.text + Separator(front == []), Line(n), L.Units("\n"), Spaces(2 * n), LogValue(nums, x, n, l.hex).text);
  }

  lemma LogItemsAppend(nums: Numbers, front: seq<JSValue>, x: JSValue, n: nat, hex: bool)
    ensures var l := LogItems(nums, front, n, hex);
            LogItems(nums, front + [x], n, hex).text == l.text + Separator(front == []) + Line(n) + LogValue(nums, x, n, l.hex).text
  {
    hide LogValue, Line, Separator;
    var items := front + [x];
    assert items[..|items| - 1] == front && items[|items| - 1] == x;
  }

  /** The same for properties: the name as it is, a colon and a space. */
  lemma PropertyLayout(nums: Numbers, front: seq<Property>, p: Property, n: nat, hex: bool)
    ensures var l := LogProps(nums, front, n, hex);
            LogProps(nums, front + [p], n, hex).text
            == l.text + (if front == [] then [] else L.Units(",")) + L.Units("\n") + Spaces(2 * n)
               + (p.name + L.Units(": ") + LogValue(nums, p.value, n, l.hex).text)
  {
    hide LogValue, LogProps, Line, Separator, L.Units, Spaces;
    var l := LogProps(nums, front, n, hex);
    var rest := p.name + [COLON, SPACE] + LogValue(nums, p.value, n, l.hex).text;
    LogPropsAppend(nums, front, p, n, hex);
    LineText(n);
    SeparatorText(front == []);
    ColonText();
    LineInside(l.text + Separator(front == []), Line(n), L.Units("\n"), Spaces(2 * n), rest);
  }

  lemma ColonText()
    ensures L.Units(": ") == [COLON, SPACE]
  {
  }

  lemma LogPropsAppend(nums: Numbers, front: seq<Property>, p: Property, n: nat, hex: bool)
    ensures var l := LogProps(nums, front, n, hex);
            LogProps(nums, front + [p], n, hex).text
            == l.text + Separator(front == []) + Line(n) + (p.name + [COLON, SPACE] + LogValue(nums, p.value, n, l.hex).text)
  {
    hide LogValue, Line, Separator;
    var ps := front + [p];
    assert ps[..|ps| - 1] == front && ps[|ps| - 1] == p;
    var l := LogProps(nums, front, n, hex);
    LastParts(l.text + Separator(front == []) + Line(n), p.name, [COLON, SPACE], LogValue(nums, p.value, n, l.hex).text);
  }

  lemma LastParts(a: Text, b: Text, c: Text, d: Text)
    ensures a + b + c + d == a + (b + c + d)
  {
  }
}
