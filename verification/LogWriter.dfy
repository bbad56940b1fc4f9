/** JSValueLogWriter, the indented printer, and what comes back when its text is read as JSON. */
module LogWriters {
  import opened JSValues
  import opened JsonTokens
  import opened JsonSyntax
  import opened Cursors
  import opened ReadFroms
  import opened Equality
  import Bisimulation

  // ---------- the printed text ----------

  function Indent(n: nat): Text {
    if n == 0 then [] else [SPACE, SPACE] + Indent(n - 1)
  }

  function Line(n: nat): Text {
    [LF] + Indent(n)
  }

  function HexUnit(d: nat): Unit
    requires d < 16
  {
    if d < 10 then ZERO + d else 0x61 + d - 10
  }

  function HexText(n: nat): Text {
    if n < 16 then [HexUnit(n)] else HexText(n / 16) + [HexUnit(n % 16)]
  }

  /** Control characters without an escape letter are printed as four hex digits, which leaves the stream in hex mode. */
  predicate NeedsHex(c: Unit) {
    c < 0x20 && c != 0x08 && c != 0x0C && c != LF && c != CR && c != TAB
  }

  function LogChar(c: Unit): Text {
    if c == QUOTE then [BACKSLASH, QUOTE]
    else if c == BACKSLASH then [BACKSLASH, BACKSLASH]
    else if c == 0x08 then [BACKSLASH, 0x62]
    else if c == 0x0C then [BACKSLASH, 0x66]
    else if c == LF then [BACKSLASH, 0x6E]
    else if c == CR then [BACKSLASH, 0x72]
    else if c == TAB then [BACKSLASH, 0x74]
    else if c <= 0x1F then [BACKSLASH, LOWER_U, ZERO, ZERO, HexUnit(c / 16), HexUnit(c % 16)]
    else [c]
  }

  function LogChars(s: Text): Text {
    if s == [] then [] else LogChars(s[..|s| - 1]) + LogChar(s[|s| - 1])
  }

  predicate AnyHex(s: Text) {
    exists i :: 0 <= i < |s| && NeedsHex(s[i])
  }

  /** An integer on a stream; std::hex is never taken back, and prints a negative number as its 64-bit pattern. */
  function IntText(i: I64, hex: bool): Text {
    if !hex then Decimal(i) else HexText(if i < 0 then i + 0x1_0000_0000_0000_0000 else i)
  }

  function Separator(start: bool): Text {
    if start then [] else [COMMA]
  }

  // What has been printed, and whether the stream is in hex mode after it.
  datatype Log = Log(text: Text, hex: bool)

  function LogValue(nums: Numbers, v: JSValue, n: nat, hex: bool): Log
    decreases v, 1
  {
    match v
    case Null => Log(NULL_TEXT, hex)
    case Object(ps) =>
      if ps == [] then Log([LBRACE, RBRACE], hex)
      else var l := LogProps(nums, ps, n + 1, hex); Log([LBRACE] + l.text + Line(n) + [RBRACE], l.hex)
    case Array(items) =>
      if items == [] then Log([LBRACKET, RBRACKET], hex)
      else var l := LogItems(nums, items, n + 1, hex); Log([LBRACKET] + l.text + Line(n) + [RBRACKET], l.hex)
    case String(s) => Log([QUOTE] + LogChars(s) + [QUOTE], hex || AnyHex(s))
    case Boolean(b) => Log(if b then TRUE_TEXT else FALSE_TEXT, hex)
    case Int64(i) => Log(IntText(i, hex), hex)
    case Number(d) => Log(DoubleText(nums, d), hex)
  }

  function LogItems(nums: Numbers, items: seq<JSValue>, n: nat, hex: bool): Log
    decreases items, 0
  {
    if items == [] then Log([], hex)
    else
      var l := LogItems(nums, items[..|items| - 1], n, hex);
      var x := LogValue(nums, items[|items| - 1], n, l.hex);
      Log(l.text + Separator(|items| == 1) + Line(n) + x.text, x.hex)
  }

  /** Names are printed without quotes. */
  function LogProps(nums: Numbers, ps: seq<Property>, n: nat, hex: bool): Log
    decreases ps, 0
  {
    if ps == [] then Log([], hex)
    else
      var l := LogProps(nums, ps[..|ps| - 1], n, hex);
      var p := ps[|ps| - 1];
      var x := LogValue(nums, p.value, n, l.hex);
      Log(l.text + Separator(|ps| == 1) + Line(n) + p.name + [COLON, SPACE] + x.text, x.hex)
  }

  // ---------- the writer ----------

  class JSValueLogWriter {
    const nums: Numbers
    var indent: nat
    var stream: Text
    var hex: bool

    constructor (nums: Numbers)
      ensures this.nums == nums && indent == 0 && stream == [] && !hex
    {
      this.nums := nums;
      indent, stream, hex := 0, [], false;
    }

    method Write(value: Text)
      modifies this`stream
      ensures stream == old(stream) + value
    {
      stream := stream + value;
    }

    method WriteIndent()
      modifies this`stream
      ensures stream == old(stream) + Indent(indent)
    {
      var i := 0;
      while i < indent
        invariant 0 <= i <= indent && stream + Indent(indent - i) == old(stream) + Indent(indent)
      {
        assert stream + [SPACE, SPACE] + Indent(indent - i - 1) == stream + Indent(indent - i);
        stream := stream + [SPACE, SPACE];
        i := i + 1;
      }
    }

    method WriteLine()
      modifies this`stream
      ensures stream == old(stream) + Line(indent)
    {
      stream := stream + [LF];
      WriteIndent();
    }

    method WriteQuotedString(value: Text)
      modifies this`stream, this`hex
      ensures stream == old(stream) + ([QUOTE] + LogChars(value) + [QUOTE])
      ensures hex == (old(hex) || AnyHex(value))
    {
      stream := stream + [QUOTE];
      ghost var before := stream;
      hide LogChar, LogChars, AnyHex, NeedsHex;
      NothingLogged(value, before);
      for k := 0 to |value|
        invariant stream == before + LogChars(value[..k])
        invariant hex == (old(hex) || AnyHex(value[..k]))
      {
        LogCharsNext(value, k, before);
        stream := stream + LogChar(value[k]);
        if NeedsHex(value[k]) {
          hex := true;
        }
      }
      assert value[..|value|] == value;
      stream := stream + [QUOTE];
    }

    /** A comma before every item but the first. */
    method WriteSeparator(start: bool) returns (next: bool)
      modifies this`stream
      ensures !next && stream == old(stream) + Separator(start)
    {
      if !start {
        stream := stream + [COMMA];
      }
      next := false;
    }

    method WriteItem(start: bool, v: JSValue)
      modifies this`stream, this`hex, this`indent
      ensures indent == old(indent)
      ensures var x := LogValue(nums, v, indent, old(hex));
              stream == old(stream) + Separator(start) + Line(indent) + x.text && hex == x.hex
      decreases v, 2
    {
      hide LogValue, Line;
      var _ := WriteSeparator(start);
      WriteLine();
      WriteValue(v);
    }

    method WriteArray(items: seq<JSValue>)
      modifies this`stream, this`hex, this`indent
      ensures indent == old(indent)
      ensures stream == old(stream) + LogValue(nums, Array(items), indent, old(hex)).text
      ensures hex == LogValue(nums, Array(items), indent, old(hex)).hex
      decreases items, 0
    {
      hide LogItems, LogValue, Line, Separator;
      if items == [] {
        LogEmpty(nums, indent, hex);
        Write([LBRACKET, RBRACKET]);
        return;
      }
      LogArray(nums, items, indent, hex, stream);
      Write([LBRACKET]);
      indent := indent + 1;
      ghost var before := stream;
      ghost var l := Log([], hex);
      LogNothing(nums, indent, hex, before, items, []);
      var start := true;
      for k := 0 to |items|
        invariant indent == old(indent) + 1 && start == (k == 0)
        invariant l == LogItems(nums, items[..k], indent, old(hex)) && stream == before + l.text && hex == l.hex
      {
        LogItemsNext(nums, items, k, indent, old(hex), before);
        WriteItem(start, items[k]);
        start := false;
        l := LogItems(nums, items[..k + 1], indent, old(hex));
      }
      assert items[..|items|] == items;
      indent := indent - 1;
      WriteLine();
      Write([RBRACKET]);
    }

    method WriteProperty(start: bool, p: Property)
      modifies this`stream, this`hex, this`indent
      ensures indent == old(indent)
      ensures var x := LogValue(nums, p.value, indent, old(hex));
              stream == old(stream) + Separator(start) + Line(indent) + p.name + [COLON, SPACE] + x.text && hex == x.hex
      decreases p, 2
    {
      hide LogValue, Line;
      var _ := WriteSeparator(start);
      WriteLine();
      Write(p.name);
      Write([COLON, SPACE]);
      WriteValue(p.value);
    }

    method WriteObject(ps: seq<Property>)
      modifies this`stream, this`hex, this`indent
      ensures indent == old(indent)
      ensures stream == old(stream) + LogValue(nums, Object(ps), indent, old(hex)).text
      ensures hex == LogValue(nums, Object(ps), indent, old(hex)).hex
      decreases ps, 0
    {
      hide LogProps, LogValue, Line, Separator;
      if ps == [] {
        LogEmpty(nums, indent, hex);
        Write([LBRACE, RBRACE]);
        return;
      }
      LogObject(nums, ps, indent, hex, stream);
      Write([LBRACE]);
      indent := indent + 1;
      ghost var before := stream;
      ghost var l := Log([], hex);
      LogNothing(nums, indent, hex, before, [], ps);
      var start := true;
      for k := 0 to |ps|
        invariant indent == old(indent) + 1 && start == (k == 0)
        invariant l == LogProps(nums, ps[..k], indent, old(hex)) && stream == before + l.text && hex == l.hex
      {
        LogPropsNext(nums, ps, k, indent, old(hex), before);
        WriteProperty(start, ps[k]);
        start := false;
        l := LogProps(nums, ps[..k + 1], indent, old(hex));
      }
      assert ps[..|ps|] == ps;
      indent := indent - 1;
      WriteLine();
      Write([RBRACE]);
    }

    method WriteValue(v: JSValue)
      modifies this`stream, this`hex, this`indent
      ensures indent == old(indent)
      ensures stream == old(stream) + LogValue(nums, v, indent, old(hex)).text
      ensures hex == LogValue(nums, v, indent, old(hex)).hex
      decreases v, 1
    {
      match v
      case Null => Write(NULL_TEXT);
      case Object(ps) => WriteObject(ps);
      case Array(items) => WriteArray(items);
      case String(s) => WriteQuotedString(s);
      case Boolean(b) => Write(if b then TRUE_TEXT else FALSE_TEXT);
      case Int64(i) => Write(IntText(i, hex));
      case Number(d) => Write(DoubleText(nums, d));
    }
  }

  // The text of a container, piece by piece in the order it is printed.

  lemma LogNothing(nums: Numbers, n: nat, hex: bool, s: Text, items: seq<JSValue>, ps: seq<Property>)
    ensures LogItems(nums, items[..0], n, hex) == LogProps(nums, ps[..0], n, hex) == Log([], hex) && s + [] == s
  {
  }

  lemma LogEmpty(nums: Numbers, n: nat, hex: bool)
    ensures LogValue(nums, Array([]), n, hex) == Log([LBRACKET, RBRACKET], hex)
    ensures LogValue(nums, Object([]), n, hex) == Log([LBRACE, RBRACE], hex)
  {
  }

  lemma LogArray(nums: Numbers, items: seq<JSValue>, n: nat, hex: bool, s: Text)
    requires items != []
    ensures var l := LogItems(nums, items, n + 1, hex);
            s + LogValue(nums, Array(items), n, hex).text == s + [LBRACKET] + l.text + Line(n) + [RBRACKET]
            && LogValue(nums, Array(items), n, hex).hex == l.hex
  {
    hide LogItems, Line;
  }

  lemma LogObject(nums: Numbers, ps: seq<Property>, n: nat, hex: bool, s: Text)
    requires ps != []
    ensures var l := LogProps(nums, ps, n + 1, hex);
            s + LogValue(nums, Object(ps), n, hex).text == s + [LBRACE] + l.text + Line(n) + [RBRACE]
            && LogValue(nums, Object(ps), n, hex).hex == l.hex
  {
    hide LogProps, Line;
  }

  lemma LogItemsNext(nums: Numbers, items: seq<JSValue>, k: nat, n: nat, hex: bool, s: Text)
    requires k < |items|
    ensures var l, m := LogItems(nums, items[..k], n, hex), LogItems(nums, items[..k + 1], n, hex);
            var x := LogValue(nums, items[k], n, l.hex);
            s + m.text == s + l.text + Separator(k == 0) + Line(n) + x.text && m.hex == x.hex
  {
    hide LogValue, Line, Separator;
    var done := items[..k + 1];
    assert done[..k] == items[..k] && done[k] == items[k];
  }

  lemma LogPropsNext(nums: Numbers, ps: seq<Property>, k: nat, n: nat, hex: bool, s: Text)
    requires k < |ps|
    ensures var l, m := LogProps(nums, ps[..k], n, hex), LogProps(nums, ps[..k + 1], n, hex);
            var x := LogValue(nums, ps[k].value, n, l.hex);
            s + m.text == s + l.text + Separator(k == 0) + Line(n) + ps[k].name + [COLON, SPACE] + x.text && m.hex == x.hex
  {
    hide LogValue, Line, Separator;
    var done := ps[..k + 1];
    assert done[..k] == ps[..k] && done[k] == ps[k];
  }

  lemma LogCharsNext(value: Text, k: nat, s: Text)
    requires k < |value|
    ensures s + LogChars(value[..k + 1]) == s + LogChars(value[..k]) + LogChar(value[k])
    ensures AnyHex(value[..k + 1]) <==> AnyHex(value[..k]) || NeedsHex(value[k])
  {
    hide LogChar, NeedsHex;
    AnyHexPush(value[..k], value[k]);
    assert value[..k] + [value[k]] == value[..k + 1];
    var done := value[..k + 1];
    assert done[..k] == value[..k] && done[k] == value[k];
  }

  lemma NothingLogged(value: Text, s: Text)
    ensures s + LogChars(value[..0]) == s && !AnyHex(value[..0])
  {
  }

  lemma AnyHexPush(s: Text, c: Unit)
    ensures AnyHex(s + [c]) <==> AnyHex(s) || NeedsHex(c)
  {
    if AnyHex(s) {
      var i :| 0 <= i < |s| && NeedsHex(s[i]);
      assert (s + [c])[i] == s[i];
    }
    assert (s + [c])[|s|] == c;
  }

  // ---------- the text as JSON ----------

  // Trees whose log text is JSON: arrays of strings, booleans, null, integers, arrays and empty objects.
  predicate IsPlain(v: JSValue) {
    match v
    case Array(items) => forall i :: 0 <= i < |items| ==> IsPlain(items[i])
    case Object(ps) => ps == []
    case Number(_) => false
    case _ => true
  }

  /** Some string inside needs a hex escape. */
  predicate Controls(v: JSValue) {
    match v
    case String(s) => AnyHex(s)
    case Array(items) => exists i :: 0 <= i < |items| && Controls(items[i])
    case _ => false
  }

  predicate AnyControls(items: seq<JSValue>) {
    exists i :: 0 <= i < |items| && Controls(items[i])
  }

  function LogPiece(c: Unit): Piece {
    if c == QUOTE || c == BACKSLASH then Escape(c)
    else if c == 0x08 then Escape(0x62)
    else if c == 0x0C then Escape(0x66)
    else if c == LF then Escape(0x6E)
    else if c == CR then Escape(0x72)
    else if c == TAB then Escape(0x74)
    else if c <= 0x1F then Hex([ZERO, ZERO, HexUnit(c / 16), HexUnit(c % 16)])
    else Plain(c)
  }

  function LogPieces(s: Text): seq<Piece> {
    if s == [] then [] else LogPieces(s[..|s| - 1]) + [LogPiece(s[|s| - 1])]
  }

  /** The text of a plain tree as a concrete syntax tree. */
  function LogNode(v: JSValue, n: nat, hex: bool): Node
    decreases v, 1
  {
    match v
    case Array(items) =>
      if items == [] then ArrayNode([], []) else ArrayNode([], Padded(LogNodes(items, n + 1, hex), Line(n)))
    case String(s) => StringNode(LogPieces(s))
    case Boolean(b) => ScalarNode(if b then TRUE_TEXT else FALSE_TEXT)
    case Int64(i) => ScalarNode(IntText(i, hex))
    case Object(_) => ObjectNode([], [])
    case _ => ScalarNode(NULL_TEXT)
  }

  function LogNodes(items: seq<JSValue>, n: nat, hex: bool): (ns: seq<Item>)
    ensures |ns| == |items|
    decreases items, 0
  {
    if items == [] then []
    else
      var front, last := items[..|items| - 1], items[|items| - 1];
      LogNodes(front, n, hex) + [Item(Line(n), LogNode(last, n, hex || AnyControls(front)), [])]
  }

  /** The last item is followed by blanks. */
  function Padded(ns: seq<Item>, w: Text): seq<Item>
    requires ns != []
  {
    ns[..|ns| - 1] + [ns[|ns| - 1].(after := ns[|ns| - 1].after + w)]
  }

  /** What reading the text gives: the tree, but for integers printed in hex mode. */
  function Reread(rt: Runtime, v: JSValue, hex: bool): JSValue
    decreases v, 1
  {
    match v
    case Array(items) => Array(RereadItems(rt, items, hex))
    case Int64(i) => ScalarValue(rt, IntText(i, hex))
    case _ => v
  }

  function RereadItems(rt: Runtime, items: seq<JSValue>, hex: bool): (vs: seq<JSValue>)
    ensures |vs| == |items|
    decreases items, 0
  {
    if items == [] then []
    else
      var front, last := items[..|items| - 1], items[|items| - 1];
      RereadItems(rt, front, hex) + [Reread(rt, last, hex || AnyControls(front))]
  }

  // Strings.

  lemma LogPieceText(rt: Runtime, c: Unit)
    ensures PieceText(LogPiece(c)) == LogChar(c) && LegalPiece(rt, LogPiece(c)) && PieceUnit(rt, LogPiece(c)) == c
  {
    if c <= 0x1F {
      HexUnitDigit(c / 16);
      HexUnitDigit(c % 16);
      HexUnitDigit(0);
    }
  }

  lemma HexUnitDigit(d: nat)
    requires d < 16
    ensures HexDigit(HexUnit(d)) == Some(d)
  {
  }

  lemma {:induction false} PiecesPush(rt: Runtime, xs: seq<Piece>, x: Piece)
    ensures PiecesText(xs + [x]) == PiecesText(xs) + PieceText(x) && Decode(rt, xs + [x]) == Decode(rt, xs) + [PieceUnit(rt, x)]
  {
    hide PieceText, PieceUnit;
    if xs == [] {
      assert [x][1..] == [] && [] + [x] == [x];
    } else {
      assert (xs + [x])[1..] == xs[1..] + [x];
      PiecesPush(rt, xs[1..], x);
    }
  }

  lemma {:induction false} LogPiecesText(rt: Runtime, s: Text)
    ensures PiecesText(LogPieces(s)) == LogChars(s) && LegalPieces(rt, LogPieces(s)) && Decode(rt, LogPieces(s)) == s
  {
    hide PieceText, PieceUnit, LegalPiece, LogPiece, LogChar, PiecesText, Decode;
    if s == [] {
      PiecesEmpty(rt, [], []);
      assert PiecesText([]) == PiecesText([]) + [] && Decode(rt, []) == [] + Decode(rt, []);
    } else {
      var front, c := s[..|s| - 1], s[|s| - 1];
      LogPiecesText(rt, front);
      LogPieceText(rt, c);
      PiecesPush(rt, LogPieces(front), LogPiece(c));
      assert front + [c] == s;
    }
  }

  // Blanks and numerals.

  lemma {:induction false} IndentIsBlank(n: nat)
    ensures Blank(Indent(n))
  {
    if n > 0 {
      IndentIsBlank(n - 1);
    }
  }

  lemma LineIsBlank(n: nat)
    ensures Blank(Line(n))
  {
    IndentIsBlank(n);
  }

  predicate ScalarUnits(t: Text) {
    forall i :: 0 <= i < |t| ==> IsScalarUnit(t[i])
  }

  lemma {:induction false} DigitsAreScalar(n: nat)
    ensures Digits(n) != [] && ScalarUnits(Digits(n))
  {
    if n >= 10 {
      DigitsAreScalar(n / 10);
    }
  }

  lemma {:induction false} HexIsScalar(n: nat)
    ensures HexText(n) != [] && ScalarUnits(HexText(n))
  {
    if n >= 16 {
      HexIsScalar(n / 16);
    }
  }

  lemma SqueezedInt(i: I64, hex: bool)
    ensures Squeezed(IntText(i, hex)) == IntText(i, hex)
  {
    if hex {
      HexIsScalar(if i < 0 then i + 0x1_0000_0000_0000_0000 else i);
    } else {
      var j: int := i;
      DigitsAreScalar(if j < 0 then -j else j);
    }
    SqueezedPlain(IntText(i, hex));
  }

  lemma IntIsScalar(rt: Runtime, i: I64, hex: bool)
    ensures Legal(rt, ScalarNode(IntText(i, hex))) && Squeezed(IntText(i, hex)) == IntText(i, hex)
  {
    SqueezedInt(i, hex);
    if hex {
      HexIsScalar(if i < 0 then i + 0x1_0000_0000_0000_0000 else i);
    } else {
      var j: int := i;
      DigitsAreScalar(if j < 0 then -j else j);
    }
  }

  // Lists.

  function ItemsText(ns: seq<Item>): Text {
    if ns == [] then [] else ItemsText(ns[..|ns| - 1]) + Separator(|ns| == 1) + ItemText(ns[|ns| - 1])
  }

  lemma {:induction false} RestJoined(done: seq<Item>, rest: seq<Item>)
    requires done != []
    ensures ItemsText(done) + ArrayRest(rest) == ItemsText(done + rest) + [RBRACKET]
    decreases |rest|
  {
    hide ItemText;
    if rest == [] {
      assert done + rest == done;
    } else {
      var next := done + [rest[0]];
      assert next[..|next| - 1] == done && next[|next| - 1] == rest[0] && next + rest[1..] == done + rest;
      RestJoined(next, rest[1..]);
      assert ItemsText(next) == ItemsText(done) + [COMMA] + ItemText(rest[0]);
      assert ItemsText(done) + ([COMMA] + ItemText(rest[0]) + ArrayRest(rest[1..])) == ItemsText(next) + ArrayRest(rest[1..]);
    }
  }

  lemma BodyJoined(pad: Text, ns: seq<Item>)
    requires ns != []
    ensures ArrayBody(pad, ns) == ItemsText(ns) + [RBRACKET]
  {
    hide ItemText;
    RestJoined(ns[..1], ns[1..]);
    assert ns[..1] + ns[1..] == ns && ns[..1][..0] == [];
    assert ItemsText(ns[..1]) == ItemText(ns[0]) by {
      assert ItemsText([]) + Separator(true) + ItemText(ns[0]) == ItemText(ns[0]);
    }
  }

  lemma PaddedJoined(ns: seq<Item>, w: Text)
    requires ns != []
    ensures ItemsText(Padded(ns, w)) == ItemsText(ns) + w
  {
    hide NodeText;
    var front, last := ns[..|ns| - 1], ns[|ns| - 1];
    var qs := Padded(ns, w);
    assert qs[..|qs| - 1] == front && qs[|qs| - 1] == last.(after := last.after + w);
    assert ItemText(last.(after := last.after + w)) == ItemText(last) + w;
  }

  lemma {:induction false} RawItemsPush(rt: Runtime, ns: seq<Item>, x: Item)
    ensures RawItems(rt, ns + [x]) == RawItems(rt, ns) + [Raw(rt, x.value)]
  {
    hide Raw;
    if ns == [] {
      assert [x][1..] == [] && [] + [x] == [x];
    } else {
      assert (ns + [x])[1..] == ns[1..] + [x];
      RawItemsPush(rt, ns[1..], x);
    }
  }

  lemma PaddedRaw(rt: Runtime, ns: seq<Item>, w: Text)
    requires ns != []
    ensures RawItems(rt, Padded(ns, w)) == RawItems(rt, ns)
  {
    hide Raw, RawItems;
    var front, last := ns[..|ns| - 1], ns[|ns| - 1];
    RawItemsPush(rt, front, last);
    RawItemsPush(rt, front, last.(after := last.after + w));
    assert front + [last] == ns;
  }

  // Values.

  lemma AnyControlsPush(items: seq<JSValue>, v: JSValue)
    ensures AnyControls(items + [v]) <==> AnyControls(items) || Controls(v)
  {
    hide Controls;
    if AnyControls(items) {
      var i :| 0 <= i < |items| && Controls(items[i]);
      assert (items + [v])[i] == items[i];
    }
    assert (items + [v])[|items|] == v;
  }

  /** What is true of the printed text of a plain value. */
  ghost predicate Prints(rt: Runtime, nums: Numbers, v: JSValue, n: nat, hex: bool) {
    var node := LogNode(v, n, hex);
    && LogValue(nums, v, n, hex) == Log(NodeText(node), hex || Controls(v))
    && Legal(rt, node) && Raw(rt, node) == Reread(rt, v, hex)
  }

  ghost predicate PrintsItems(rt: Runtime, nums: Numbers, items: seq<JSValue>, n: nat, hex: bool) {
    var ns := LogNodes(items, n, hex);
    && LogItems(nums, items, n, hex) == Log(ItemsText(ns), hex || AnyControls(items))
    && (forall i :: 0 <= i < |ns| ==> LegalItem(rt, ns[i]))
    && RawItems(rt, ns) == RereadItems(rt, items, hex)
  }

  lemma {:induction false} ValuePrints(rt: Runtime, nums: Numbers, v: JSValue, n: nat, hex: bool)
    requires IsPlain(v) && ReadsWords(rt)
    ensures Prints(rt, nums, v, n, hex)
    decreases v, 1
  {
    if v.Array? && v.items != [] {
      hide Prints, PrintsItems;
      ItemsPrint(rt, nums, v.items, n + 1, hex);
      ArrayPrints(rt, nums, v.items, n, hex);
    } else if v.String? {
      StringPrints(rt, nums, v.str, n, hex);
    } else if v.Int64? {
      IntPrints(rt, nums, v.i, n, hex);
    } else {
      ScalarPrints(rt, nums, v, n, hex);
    }
  }

  lemma StringPrints(rt: Runtime, nums: Numbers, s: Text, n: nat, hex: bool)
    ensures Prints(rt, nums, String(s), n, hex)
  {
    LogPiecesText(rt, s);
    hide LogPieces, LogChars, PiecesText, Decode, LegalPieces, AnyHex;
  }

  lemma IntPrints(rt: Runtime, nums: Numbers, i: I64, n: nat, hex: bool)
    ensures Prints(rt, nums, Int64(i), n, hex)
  {
    IntIsScalar(rt, i, hex);
    hide IntText, Legal, ScalarValue;
  }

  function Word(v: JSValue): Text
    requires v.Null? || v.Boolean?
  {
    if v.Null? then NULL_TEXT else if v.b then TRUE_TEXT else FALSE_TEXT
  }

  lemma WordUnits(v: JSValue)
    requires v.Null? || v.Boolean?
    ensures Word(v) != [] && ScalarUnits(Word(v))
  {
  }

  lemma WordValue(rt: Runtime, v: JSValue)
    requires ReadsWords(rt) && (v.Null? || v.Boolean?)
    ensures ScalarValue(rt, Word(v)) == v
  {
    assert NULL_TEXT != TRUE_TEXT && NULL_TEXT != FALSE_TEXT && TRUE_TEXT != FALSE_TEXT;
  }

  lemma WordIsScalar(rt: Runtime, v: JSValue)
    requires ReadsWords(rt) && (v.Null? || v.Boolean?)
    ensures Legal(rt, ScalarNode(Word(v))) && Squeezed(Word(v)) == Word(v) && Raw(rt, ScalarNode(Word(v))) == v
  {
    hide Word, ReadsWords;
    WordUnits(v);
    WordValue(rt, v);
    SqueezedPlain(Word(v));
    hide Squeezed, ScalarValue;
  }

  lemma WordNode(nums: Numbers, v: JSValue, n: nat, hex: bool)
    requires v.Null? || v.Boolean?
    ensures LogNode(v, n, hex) == ScalarNode(Word(v)) && LogValue(nums, v, n, hex) == Log(Word(v), hex)
    ensures !Controls(v)
  {
    hide LogItems, LogProps, LogNodes;
  }

  lemma WordPrints(rt: Runtime, nums: Numbers, v: JSValue, n: nat, hex: bool)
    requires ReadsWords(rt) && (v.Null? || v.Boolean?)
    ensures Prints(rt, nums, v, n, hex)
  {
    hide Word, LogNode, LogValue, Legal, Raw, ReadsWords, Controls;
    WordIsScalar(rt, v);
    WordNode(nums, v, n, hex);
  }

  lemma ScalarPrints(rt: Runtime, nums: Numbers, v: JSValue, n: nat, hex: bool)
    requires ReadsWords(rt) && (v == Array([]) || v == Object([]) || v.Null? || v.Boolean?)
    ensures Prints(rt, nums, v, n, hex)
  {
    hide Prints;
    if v.IsContainer() {
      EmptyPrints(rt, nums, n, hex);
    } else {
      WordPrints(rt, nums, v, n, hex);
    }
  }

  lemma EmptyPrints(rt: Runtime, nums: Numbers, n: nat, hex: bool)
    ensures Prints(rt, nums, Array([]), n, hex) && Prints(rt, nums, Object([]), n, hex)
  {
  }

  lemma ArrayPrints(rt: Runtime, nums: Numbers, items: seq<JSValue>, n: nat, hex: bool)
    requires items != [] && PrintsItems(rt, nums, items, n + 1, hex)
    ensures Prints(rt, nums, Array(items), n, hex)
  {
    hide LogItems, LogNodes, RawItems, RereadItems, ItemsText, Line, ArrayBody, Padded;
    var ns := LogNodes(items, n + 1, hex);
    var qs := Padded(ns, Line(n));
    BodyJoined([], qs) by { PaddedLegal(rt, ns, n); }
    PaddedJoined(ns, Line(n));
    PaddedRaw(rt, ns, Line(n));
    PaddedLegal(rt, ns, n);
    assert [LBRACKET] + (ItemsText(ns) + Line(n) + [RBRACKET]) == [LBRACKET] + ItemsText(ns) + Line(n) + [RBRACKET];
    assert Controls(Array(items)) == AnyControls(items);
  }

  lemma PaddedLegal(rt: Runtime, ns: seq<Item>, n: nat)
    requires ns != [] && forall i :: 0 <= i < |ns| ==> LegalItem(rt, ns[i])
    ensures Padded(ns, Line(n)) != [] && Legal(rt, ArrayNode([], Padded(ns, Line(n))))
  {
    LineIsBlank(n);
    hide Line;
    var qs := Padded(ns, Line(n));
    forall i | 0 <= i < |qs| ensures Blank(qs[i].before) && Legal(rt, qs[i].value) && Blank(qs[i].after) {
      assert LegalItem(rt, ns[i]);
    }
  }

  lemma {:induction false} ItemsPrint(rt: Runtime, nums: Numbers, items: seq<JSValue>, n: nat, hex: bool)
    requires (forall i :: 0 <= i < |items| ==> IsPlain(items[i])) && ReadsWords(rt)
    ensures PrintsItems(rt, nums, items, n, hex)
    decreases items, 0
  {
    if items != [] {
      var front, last := items[..|items| - 1], items[|items| - 1];
      hide LogValue, LogNode, Legal, Raw, Reread, Controls, Line, AnyControls, NodeText;
      ItemsPrint(rt, nums, front, n, hex);
      ValuePrints(rt, nums, last, n, hex || AnyControls(front));
      AnyControlsPush(front, last);
      assert front + [last] == items;
      LineIsBlank(n);
      ItemPrints(rt, nums, front, last, n, hex);
    } else {
      hide LogValue;
    }
  }

  lemma ItemPrints(rt: Runtime, nums: Numbers, front: seq<JSValue>, last: JSValue, n: nat, hex: bool)
    requires PrintsItems(rt, nums, front, n, hex) && Prints(rt, nums, last, n, hex || AnyControls(front))
    ensures PrintsItems(rt, nums, front + [last], n, hex)
  {
    hide LogValue, LogItems, LogNode, LogNodes, Legal, Raw, Reread, RereadItems, Controls, Line, NodeText, AnyControls, RawItems, ItemsText;
    var x := Item(Line(n), LogNode(last, n, hex || AnyControls(front)), []);
    var ns := LogNodes(front, n, hex);
    AnyControlsPush(front, last);
    LineIsBlank(n);
    RawItemsPush(rt, ns, x);
    ListsPush(rt, nums, front, last, n, hex);
    JoinedPush(ns, x);
  }

  // The lists of a longer array, each by its last element.
  lemma ListsPush(rt: Runtime, nums: Numbers, front: seq<JSValue>, last: JSValue, n: nat, hex: bool)
    ensures LogNodes(front + [last], n, hex)
         == LogNodes(front, n, hex) + [Item(Line(n), LogNode(last, n, hex || AnyControls(front)), [])]
    ensures RereadItems(rt, front + [last], hex) == RereadItems(rt, front, hex) + [Reread(rt, last, hex || AnyControls(front))]
    ensures var l := LogItems(nums, front, n, hex);
            var x := LogValue(nums, last, n, l.hex);
            LogItems(nums, front + [last], n, hex) == Log(l.text + Separator(|front| == 0) + Line(n) + x.text, x.hex)
  {
    hide LogValue, LogNode, Reread, Line, AnyControls, Separator;
    var items := front + [last];
    assert items[..|items| - 1] == front && items[|items| - 1] == last;
  }

  lemma JoinedPush(ns: seq<Item>, x: Item)
    requires x.after == []
    ensures ItemsText(ns + [x]) == ItemsText(ns) + Separator(|ns| == 0) + x.before + NodeText(x.value)
  {
    hide NodeText, Separator;
    assert (ns + [x])[..|ns|] == ns && (ns + [x])[|ns|] == x;
    assert ItemText(x) == x.before + NodeText(x.value);
    hide ItemText;
    var s := ItemsText(ns) + Separator(|ns| == 0);
    assert s + (x.before + NodeText(x.value)) == s + x.before + NodeText(x.value);
  }

  lemma {:induction false} RereadIsCanon(rt: Runtime, v: JSValue, hex: bool)
    requires IsPlain(v)
    ensures Canon(Reread(rt, v, hex)) == Reread(rt, v, hex)
  {
    RereadWellFormed(rt, v, hex);
    CanonOfWellFormed(Reread(rt, v, hex));
  }

  lemma {:induction false} RereadWellFormed(rt: Runtime, v: JSValue, hex: bool)
    requires IsPlain(v)
    ensures WellFormed(Reread(rt, v, hex))
    decreases v, 1
  {
    if v.Array? {
      RereadItemsWellFormed(rt, v.items, hex);
    }
  }

  lemma {:induction false} RereadItemsWellFormed(rt: Runtime, items: seq<JSValue>, hex: bool)
    requires forall i :: 0 <= i < |items| ==> IsPlain(items[i])
    ensures forall i :: 0 <= i < |items| ==> WellFormed(RereadItems(rt, items, hex)[i])
    decreases items, 0
  {
    if items != [] {
      hide Reread;
      var front, last := items[..|items| - 1], items[|items| - 1];
      RereadItemsWellFormed(rt, front, hex);
      RereadWellFormed(rt, last, hex || AnyControls(front));
    }
  }

  /** Reading the log text of a plain array or empty object gives the tree back, but for integers printed in hex mode. */
  lemma LogReadBack(rt: Runtime, nums: Numbers, v: JSValue)
    requires IsPlain(v) && v.IsContainer() && ReadsWords(rt)
    ensures var c := Json(rt, OpenJson(rt, LogValue(nums, v, 0, false).text));
            Valid(c) && ReadValue(c).0 == Reread(rt, v, false)
  {
    ValuePrints(rt, nums, v, 0, false);
    RereadIsCanon(rt, v, false);
    var n := LogNode(v, 0, false);
    hide LogValue, NodeText, Legal, Raw, Reread, OpenJson, ReadValue, Valid, Canon;
    Bisimulation.ReadText(rt, [], n, []);
    assert [] + NodeText(n) + [] == NodeText(n);
  }

  // ---------- when nothing is lost ----------

  /** The runtime reads decimal numerals of an Int64, and no lower-case letter as a digit of one. */
  ghost predicate ReadsIntegers(rt: Runtime) {
    && ReadsDecimals(rt)
    && (forall t: Text, k :: 0 <= k < |t| && 0x61 <= t[k] <= 0x7A ==> rt.wcstoi64(t) == None)
  }

  /** Every integer that is printed behind a hex escape is a single decimal digit. */
  predicate Keeps(v: JSValue, hex: bool)
    decreases v, 1
  {
    match v
    case Array(items) => KeepsItems(items, hex)
    case Int64(i) => !hex || 0 <= i <= 9
    case _ => true
  }

  predicate KeepsItems(items: seq<JSValue>, hex: bool)
    decreases items, 0
  {
    items == []
    || (var front := items[..|items| - 1];
        KeepsItems(front, hex) && Keeps(items[|items| - 1], hex || AnyControls(front)))
  }

  predicate DecimalDigits(t: Text) {
    forall i :: 0 <= i < |t| ==> ZERO <= t[i] <= ZERO + 9
  }

  /** A hex numeral made of decimal digits is the decimal numeral of a smaller number. */
  lemma {:induction false} HexReadAsDecimal(n: nat) returns (m: nat)
    requires DecimalDigits(HexText(n))
    ensures HexText(n) == Digits(m) && m <= n && (n >= 10 ==> m < n) && (n >= 1 ==> m >= 1)
    ensures 8 * m <= 5 * n + 45 && 64 * m <= 25 * n + 4185
  {
    var t := HexText(n);
    if n < 16 {
      assert t[0] == HexUnit(n);
      m := n;
    } else {
      var d := n % 16;
      assert t[|t| - 1] == HexUnit(d) && t[..|t| - 1] == HexText(n / 16);
      assert forall i :: 0 <= i < |HexText(n / 16)| ==> HexText(n / 16)[i] == t[i];
      var q := HexReadAsDecimal(n / 16);
      m := 10 * q + d;
      assert m / 10 == q && m % 10 == d;
    }
  }

  lemma {:induction false} HexLetter(n: nat) returns (k: nat)
    requires !DecimalDigits(HexText(n))
    ensures k < |HexText(n)| && 0x61 <= HexText(n)[k] <= 0x7A
  {
    var t := HexText(n);
    if n < 16 {
      k := 0;
    } else if n % 16 >= 10 {
      k := |t| - 1;
    } else {
      assert t[|t| - 1] == HexUnit(n % 16);
      assert exists i :: 0 <= i < |HexText(n / 16)| && !(ZERO <= HexText(n / 16)[i] <= ZERO + 9) by {
        var i :| 0 <= i < |t| && !(ZERO <= t[i] <= ZERO + 9);
        assert i < |t| - 1 && HexText(n / 16)[i] == t[i];
      }
      k := HexLetter(n / 16);
    }
  }

  lemma IntReread(rt: Runtime, i: I64, hex: bool)
    requires ReadsIntegers(rt)
    ensures ScalarValue(rt, IntText(i, hex)) == Int64(i) <==> !hex || 0 <= i <= 9
  {
    if !hex || 0 <= i <= 9 {
      assert rt.wcstoi64(Decimal(i)) == Some(i) && IntText(i, hex) == Decimal(i);
    } else {
      var n := if i < 0 then i + 0x1_0000_0000_0000_0000 else i;
      hide HexText;
      if DecimalDigits(HexText(n)) {
        var m := HexReadAsDecimal(n);
        assert rt.wcstoi64(Decimal(m)) == Some(m);
      } else {
        var k := HexLetter(n);
      }
    }
  }

  lemma {:induction false} RereadExactly(rt: Runtime, v: JSValue, hex: bool)
    requires IsPlain(v) && ReadsIntegers(rt)
    ensures Reread(rt, v, hex) == v <==> Keeps(v, hex)
    decreases v, 1
  {
    match v
    case Array(items) => RereadItemsExactly(rt, items, hex);
    case Int64(i) => IntReread(rt, i, hex);
    case _ =>
  }

  lemma LastAndRest(a: seq<JSValue>, x: JSValue, items: seq<JSValue>)
    requires |items| == |a| + 1
    ensures a + [x] == items <==> a == items[..|a|] && x == items[|a|]
  {
    assert (a + [x])[..|a|] == a && (a + [x])[|a|] == x && items[..|a|] + [items[|a|]] == items;
  }

  lemma {:induction false} RereadItemsExactly(rt: Runtime, items: seq<JSValue>, hex: bool)
    requires (forall i :: 0 <= i < |items| ==> IsPlain(items[i])) && ReadsIntegers(rt)
    ensures RereadItems(rt, items, hex) == items <==> KeepsItems(items, hex)
    decreases items, 0
  {
    if items != [] {
      hide Reread, Keeps, ReadsIntegers, AnyControls, IsPlain;
      var front, last := items[..|items| - 1], items[|items| - 1];
      RereadItemsExactly(rt, front, hex);
      RereadExactly(rt, last, hex || AnyControls(front));
      LastAndRest(RereadItems(rt, front, hex), Reread(rt, last, hex || AnyControls(front)), items);
    }
  }

  /** For every tree of arrays, strings, booleans, null, integers and empty objects with a container root:
      its log text reads back as the same tree exactly when every integer printed behind a hex escape has one decimal digit. */
  lemma LogRoundTrip(rt: Runtime, nums: Numbers, v: JSValue)
    requires IsPlain(v) && v.IsContainer() && ReadsWords(rt) && ReadsIntegers(rt)
    ensures var c := Json(rt, OpenJson(rt, LogValue(nums, v, 0, false).text));
            Valid(c) && (ReadValue(c).0 == v <==> Keeps(v, false))
  {
    hide LogValue, Reread, Keeps, OpenJson, ReadValue, Valid, ReadsIntegers;
    LogReadBack(rt, nums, v);
    RereadExactly(rt, v, false);
  }

  /** The shortest tree that is lost: ["\u0001", 16] prints its integer as 10. */
  lemma HexModeLosesIntegers(rt: Runtime, nums: Numbers)
    requires ReadsWords(rt) && ReadsIntegers(rt)
    ensures var c := Json(rt, OpenJson(rt, LogValue(nums, Array([String([1]), Int64(16)]), 0, false).text));
            Valid(c) && ReadValue(c).0 == Array([String([1]), Int64(10)])
  {
    hide LogValue, OpenJson, ReadValue, Valid, Reread, ReadsIntegers, ReadsWords;
    LogReadBack(rt, nums, Array([String([1]), Int64(16)]));
    LostItems(rt, nums);
    RereadArray(rt, [String([1]), Int64(16)]);
  }

  lemma RereadArray(rt: Runtime, items: seq<JSValue>)
    ensures Reread(rt, Array(items), false) == Array(RereadItems(rt, items, false))
  {
  }

  lemma LostItems(rt: Runtime, nums: Numbers)
    requires ReadsIntegers(rt)
    ensures RereadItems(rt, [String([1]), Int64(16)], false) == [String([1]), Int64(10)]
  {
    SixteenAsTen(rt);
    hide RereadItems, ReadsIntegers, IntText, LogItems, LogNodes, LogValue;
    var front := [String([1])];
    ListsPush(rt, nums, front, Int64(16), 0, false);
    assert AnyControls(front) by {
      assert NeedsHex([1][0]);
      assert Controls(front[0]);
    }
    assert front + [Int64(16)] == [String([1]), Int64(16)];
    assert RereadItems(rt, front, false) == front by {
      ListsPush(rt, nums, [], String([1]), 0, false);
      assert [] + [String([1])] == front;
    }
  }

  lemma SixteenAsTen(rt: Runtime)
    requires ReadsIntegers(rt)
    ensures Reread(rt, Int64(16), true) == Int64(10)
  {
    assert HexText(16) == [ZERO + 1, ZERO] == Decimal(10);
    assert rt.wcstoi64(Decimal(10)) == Some(10);
  }
}
