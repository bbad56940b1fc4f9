/** JSON texts as concrete syntax trees (sections 2, 4, 5 and 7 of RFC 8259, container roots), the value each denotes,
    and how the tokenizer moves over such a text. */
module JsonSyntax {
  import opened JSValues
  import opened JsonTokens

  predicate Blank(t: Text) {
    forall i :: 0 <= i < |t| ==> IsWhitespace(t[i])
  }

  // ---------- strings ----------

  datatype Piece = Plain(u: Unit) | Escape(letter: Unit) | Hex(digits: Text)

  predicate LegalPiece(rt: Runtime, x: Piece) {
    match x
    case Plain(u) => u != QUOTE && u != BACKSLASH
    case Escape(c) => Unescape(c).Some?
    case Hex(d) => |d| == HEX_CHAR_COUNT && DecodeHex(rt, d).Some?
  }

  predicate LegalPieces(rt: Runtime, xs: seq<Piece>) {
    forall i :: 0 <= i < |xs| ==> LegalPiece(rt, xs[i])
  }

  function PieceText(x: Piece): Text {
    match x
    case Plain(u) => [u]
    case Escape(c) => [BACKSLASH, c]
    case Hex(d) => [BACKSLASH, LOWER_U] + d
  }

  // Total for convenience; only legal pieces matter.
  function PieceUnit(rt: Runtime, x: Piece): Unit {
    match x
    case Plain(u) => u
    case Escape(c) => if Unescape(c).Some? then Unescape(c).value else c
    case Hex(d) => if DecodeHex(rt, d).Some? then DecodeHex(rt, d).value else 0
  }

  function PiecesText(xs: seq<Piece>): Text {
    if xs == [] then [] else PieceText(xs[0]) + PiecesText(xs[1..])
  }

  function Decode(rt: Runtime, xs: seq<Piece>): Text {
    if xs == [] then [] else [PieceUnit(rt, xs[0])] + Decode(rt, xs[1..])
  }

  function Quoted(xs: seq<Piece>): Text {
    [QUOTE] + PiecesText(xs) + [QUOTE]
  }

  // ---------- values ----------

  // Blanks are part of the tree: `pad` fills an empty container, `before` and `after` surround an item,
  // `gap` separates a name from its colon.
  datatype Node =
    | StringNode(pieces: seq<Piece>)
    | ScalarNode(chars: Text)
    | ArrayNode(pad: Text, items: seq<Item>)
    | ObjectNode(pad: Text, members: seq<Member>)

  datatype Item = Item(before: Text, value: Node, after: Text)
  datatype Member = Member(lead: Text, name: seq<Piece>, gap: Text, item: Item)

  predicate IsScalarUnit(c: Unit) {
    && !IsWhitespace(c) && c != LBRACKET && c != RBRACKET && c != LBRACE && c != RBRACE
    && c != COMMA && c != QUOTE && c != COLON
  }

  /** Blanks inside an unquoted scalar are dropped. */
  function Squeezed(cs: Text): Text {
    if cs == [] then [] else (if IsWhitespace(cs[0]) then [] else [cs[0]]) + Squeezed(cs[1..])
  }

  predicate Legal(rt: Runtime, n: Node) {
    match n
    case StringNode(xs) => LegalPieces(rt, xs)
    case ScalarNode(cs) => cs != [] && IsScalarUnit(cs[0]) && forall i :: 0 <= i < |cs| ==> IsScalarUnit(cs[i]) || IsWhitespace(cs[i])
    case ArrayNode(pad, items) =>
      && Blank(pad)
      && forall i :: 0 <= i < |items| ==> Blank(items[i].before) && Legal(rt, items[i].value) && Blank(items[i].after)
    case ObjectNode(pad, ms) =>
      && Blank(pad)
      && forall i :: 0 <= i < |ms| ==>
           && Blank(ms[i].lead) && LegalPieces(rt, ms[i].name) && Blank(ms[i].gap)
           && Blank(ms[i].item.before) && Legal(rt, ms[i].item.value) && Blank(ms[i].item.after)
  }

  predicate LegalItem(rt: Runtime, it: Item) {
    Blank(it.before) && Legal(rt, it.value) && Blank(it.after)
  }

  predicate LegalMember(rt: Runtime, m: Member) {
    Blank(m.lead) && LegalPieces(rt, m.name) && Blank(m.gap) && LegalItem(rt, m.item)
  }

  function NodeText(n: Node): Text
    decreases n, 2
  {
    match n
    case StringNode(xs) => Quoted(xs)
    case ScalarNode(cs) => cs
    case ArrayNode(pad, items) => [LBRACKET] + ArrayBody(pad, items)
    case ObjectNode(pad, ms) => [LBRACE] + ObjectBody(pad, ms)
  }

  function ItemText(it: Item): Text
    decreases it, 3
  {
    it.before + NodeText(it.value) + it.after
  }

  function MemberText(m: Member): Text
    decreases m, 4
  {
    m.lead + Quoted(m.name) + m.gap + [COLON] + ItemText(m.item)
  }

  /** What follows the opening bracket, to the closing one inclusive. */
  function ArrayBody(pad: Text, items: seq<Item>): Text
    decreases items, 1
  {
    if items == [] then pad + [RBRACKET] else ItemText(items[0]) + ArrayRest(items[1..])
  }

  function ObjectBody(pad: Text, ms: seq<Member>): Text
    decreases ms, 1
  {
    if ms == [] then pad + [RBRACE] else MemberText(ms[0]) + ObjectRest(ms[1..])
  }

  /** What follows an item: the later items, each behind its comma, and the closing bracket. */
  function ArrayRest(items: seq<Item>): Text
    decreases items, 0
  {
    if items == [] then [RBRACKET] else [COMMA] + ItemText(items[0]) + ArrayRest(items[1..])
  }

  function ObjectRest(ms: seq<Member>): Text
    decreases ms, 0
  {
    if ms == [] then [RBRACE] else [COMMA] + MemberText(ms[0]) + ObjectRest(ms[1..])
  }

  // ---------- the tree a text lists, members in text order ----------

  function ScalarValue(rt: Runtime, cs: Text): JSValue {
    Classify(rt, Parser([], NONE, cs, [], 0, false))
  }

  /** What is assumed of the C runtime: the literal words are not numerals, and decimal numerals of an Int64 are read. */
  predicate ReadsWords(rt: Runtime) {
    && rt.wcstoi64(TRUE_TEXT) == rt.wcstoi64(FALSE_TEXT) == rt.wcstoi64(NULL_TEXT) == None
    && rt.wcstod(TRUE_TEXT) == rt.wcstod(FALSE_TEXT) == rt.wcstod(NULL_TEXT) == None
  }

  ghost predicate ReadsDecimals(rt: Runtime) {
    forall i: I64 :: rt.wcstoi64(Decimal(i)) == Some(i)
  }

  function Raw(rt: Runtime, n: Node): JSValue
    decreases n, 1
  {
    match n
    case StringNode(xs) => String(Decode(rt, xs))
    case ScalarNode(cs) => ScalarValue(rt, Squeezed(cs))
    case ArrayNode(_, items) => Array(RawItems(rt, items))
    case ObjectNode(_, ms) => Object(RawMembers(rt, ms))
  }

  function RawItems(rt: Runtime, items: seq<Item>): (vs: seq<JSValue>)
    ensures |vs| == |items|
    decreases items, 0
  {
    if items == [] then [] else [Raw(rt, items[0].value)] + RawItems(rt, items[1..])
  }

  function RawMembers(rt: Runtime, ms: seq<Member>): (ps: seq<Property>)
    ensures |ps| == |ms|
    decreases ms, 0
  {
    if ms == [] then [] else [Property(Decode(rt, ms[0].name), Raw(rt, ms[0].item.value))] + RawMembers(rt, ms[1..])
  }

  // ---------- how the tokenizer moves ----------

  lemma Skip(rt: Runtime, p: Parser, q: Parser)
    requires p.source != [] && Step(rt, p) == Continue(q)
    ensures ReadNext(rt, p) == ReadNext(rt, q)
  {
    hide Step;
  }

  lemma Stop(rt: Runtime, p: Parser, q: Parser, t: ParseState)
    requires p.source != [] && Step(rt, p) == Emit(q, t)
    ensures ReadNext(rt, p) == (q, t)
  {
    hide Step;
  }

  lemma {:induction false} SkipBlank(rt: Runtime, p: Parser, w: Text, s: Text)
    requires Blank(w) && p.source == w + s && !p.allowed.stringChar
    ensures ReadNext(rt, p) == ReadNext(rt, p.(source := s))
    decreases |w|
  {
    hide ReadNext;
    if w == [] {
      assert p.source == s;
    } else {
      assert p.source[0] == w[0] && p.source[1..] == w[1..] + s;
      var q := p.(source := w[1..] + s);
      BlankStep(rt, p);
      Skip(rt, p, q);
      SkipBlank(rt, q, w[1..], s);
    }
  }

  lemma BlankStep(rt: Runtime, p: Parser)
    requires p.source != [] && IsWhitespace(p.source[0]) && !p.allowed.stringChar
    ensures Step(rt, p) == Continue(p.(source := p.source[1..]))
  {
  }

  // Inside a string.

  lemma {:induction false} ScanPiece(rt: Runtime, p: Parser, x: Piece, s: Text) returns (h: nat)
    requires LegalPiece(rt, x) && p.allowed == IN_STRING && p.source == PieceText(x) + s
    ensures ReadNext(rt, p) == ReadNext(rt, p.(source := s, text := p.text + [PieceUnit(rt, x)], hexStart := h))
  {
    hide ReadNext;
    match x
    case Plain(u) =>
      assert p.source[1..] == s;
      h := p.hexStart;
      PlainStep(rt, p);
      Skip(rt, p, p.(source := s, text := p.text + [u]));
    case Escape(c) =>
      assert p.source[1..] == [c] + s && p.source[2..] == s;
      h := p.hexStart;
      var q := p.(source := [c] + s, allowed := IN_ESCAPE);
      BackslashStep(rt, p);
      Skip(rt, p, q);
      EscapeStep(rt, q, c, s);
      Skip(rt, q, p.(source := s, text := p.text + [Unescape(c).value]));
    case Hex(d) =>
      assert p.source[1..] == [LOWER_U] + d + s;
      var q := p.(source := [LOWER_U] + d + s, allowed := IN_ESCAPE);
      BackslashStep(rt, p);
      Skip(rt, p, q);
      assert q.source[1..] == d + s;
      h := |p.text|;
      var r := p.(source := d + s, allowed := IN_HEX, hexStart := h);
      HexEntryStep(rt, q);
      Skip(rt, q, r);
      ScanHex(rt, r, d, s);
  }

  lemma PlainStep(rt: Runtime, p: Parser)
    requires p.source != [] && p.allowed == IN_STRING && p.source[0] != QUOTE && p.source[0] != BACKSLASH
    ensures Step(rt, p) == Continue(p.(source := p.source[1..], text := p.text + [p.source[0]]))
  {
  }

  lemma BackslashStep(rt: Runtime, p: Parser)
    requires p.source != [] && p.allowed == IN_STRING && p.source[0] == BACKSLASH
    ensures Step(rt, p) == Continue(p.(source := p.source[1..], allowed := IN_ESCAPE))
  {
  }

  lemma EscapeStep(rt: Runtime, p: Parser, c: Unit, s: Text)
    requires p.allowed == IN_ESCAPE && p.source == [c] + s && Unescape(c).Some?
    ensures Step(rt, p) == Continue(p.(source := s, text := p.text + [Unescape(c).value], allowed := IN_STRING))
  {
    assert p.source[1..] == s;
  }

  lemma HexEntryStep(rt: Runtime, p: Parser)
    requires p.source != [] && p.allowed == IN_ESCAPE && p.source[0] == LOWER_U
    ensures Step(rt, p) == Continue(p.(source := p.source[1..], allowed := IN_HEX, hexStart := |p.text|))
  {
  }

  lemma HexDigitStep(rt: Runtime, p: Parser)
    requires p.source != [] && p.allowed == IN_HEX && |p.text| + 1 < p.hexStart + HEX_CHAR_COUNT
    ensures Step(rt, p) == Continue(p.(source := p.source[1..], text := p.text + [p.source[0]]))
  {
  }

  lemma HexLastStep(rt: Runtime, p: Parser, d: Text)
    requires p.source != [] && p.allowed == IN_HEX && |p.text| + 1 == p.hexStart + HEX_CHAR_COUNT
    requires |d| == HEX_CHAR_COUNT && DecodeHex(rt, d).Some? && p.text[p.hexStart..] + [p.source[0]] == d
    ensures Step(rt, p)
         == Continue(p.(source := p.source[1..], text := p.text[..p.hexStart] + [DecodeHex(rt, d).value], allowed := IN_STRING))
  {
    var text := p.text + [p.source[0]];
    assert text[p.hexStart..] == d && text[..p.hexStart] == p.text[..p.hexStart];
    hide DecodeHex;
  }

  lemma {:induction false} ScanHex(rt: Runtime, p: Parser, d: Text, s: Text)
    requires |d| == HEX_CHAR_COUNT && DecodeHex(rt, d).Some? && p.allowed == IN_HEX && p.hexStart == |p.text| && p.source == d + s
    ensures ReadNext(rt, p) == ReadNext(rt, p.(source := s, text := p.text + [DecodeHex(rt, d).value], allowed := IN_STRING))
  {
    hide ReadNext, DecodeHex, Step;
    var p1 := p.(source := d[1..] + s, text := p.text + d[..1]);
    assert p.source[1..] == p1.source && p.text + [p.source[0]] == p1.text;
    HexDigitStep(rt, p);
    Skip(rt, p, p1);
    var p2 := p.(source := d[2..] + s, text := p.text + d[..2]);
    assert p1.source[1..] == p2.source && p1.text + [p1.source[0]] == p2.text;
    HexDigitStep(rt, p1);
    Skip(rt, p1, p2);
    var p3 := p.(source := d[3..] + s, text := p.text + d[..3]);
    assert p2.source[1..] == p3.source && p2.text + [p2.source[0]] == p3.text;
    HexDigitStep(rt, p2);
    Skip(rt, p2, p3);
    assert p3.source[1..] == s && p3.text[p.hexStart..] + [p3.source[0]] == d && p3.text[..p.hexStart] == p.text;
    HexLastStep(rt, p3, d);
    Skip(rt, p3, p.(source := s, text := p.text + [DecodeHex(rt, d).value], allowed := IN_STRING));
  }

  lemma PiecesUnfold(rt: Runtime, xs: seq<Piece>, s: Text, t: Text)
    requires xs != []
    ensures PiecesText(xs) + s == PieceText(xs[0]) + (PiecesText(xs[1..]) + s)
    ensures t + Decode(rt, xs) == t + [PieceUnit(rt, xs[0])] + Decode(rt, xs[1..])
  {
    assert PiecesText(xs) == PieceText(xs[0]) + PiecesText(xs[1..]);
    assert Decode(rt, xs) == [PieceUnit(rt, xs[0])] + Decode(rt, xs[1..]);
    hide PiecesText, Decode, PieceText, PieceUnit;
    Regroup(PieceText(xs[0]), PiecesText(xs[1..]), s);
    Regroup(t, [PieceUnit(rt, xs[0])], Decode(rt, xs[1..]));
  }

  lemma Regroup(a: Text, b: Text, c: Text)
    ensures a + b + c == a + (b + c)
  {
  }

  lemma PiecesEmpty(rt: Runtime, s: Text, t: Text)
    ensures PiecesText([]) + s == s && t + Decode(rt, []) == t
  {
  }

  lemma {:induction false} ScanPieces(rt: Runtime, p: Parser, xs: seq<Piece>, s: Text) returns (h: nat)
    requires LegalPieces(rt, xs) && p.allowed == IN_STRING && p.source == PiecesText(xs) + s
    ensures ReadNext(rt, p) == ReadNext(rt, p.(source := s, text := p.text + Decode(rt, xs), hexStart := h))
    decreases |xs|
  {
    hide ReadNext, PieceText, PieceUnit, LegalPiece, PiecesText, Decode;
    if xs == [] {
      h := p.hexStart;
      PiecesEmpty(rt, s, p.text);
    } else {
      var s1 := PiecesText(xs[1..]) + s;
      PiecesUnfold(rt, xs, s, p.text);
      var h1 := ScanPiece(rt, p, xs[0], s1);
      var q := p.(source := s1, text := p.text + [PieceUnit(rt, xs[0])], hexStart := h1);
      h := ScanPieces(rt, q, xs[1..], s);
    }
  }

  /** A quoted text is one token, Name or Value as the flags ask, and its text is the decoded content. */
  lemma {:induction false} ReadQuoted(rt: Runtime, p: Parser, xs: seq<Piece>, s: Text)
    requires LegalPieces(rt, xs) && p.source == Quoted(xs) + s
    requires !p.allowed.stringChar && (p.allowed.beginName || p.allowed.beginValue)
    requires p.text == [] && p.states != []
    ensures ReadNext(rt, p).1 == if p.allowed.beginName then Name else Value
    ensures var q := ReadNext(rt, p).0;
            q.source == s && q.text == Decode(rt, xs) && q.isString && q.states == p.states
            && q.allowed == if p.allowed.beginName then COLON_EXPECTED else AFTER_VALUE
  {
    hide ReadNext, PiecesText, Decode, LegalPieces, Step;
    var kind := if p.allowed.beginName then Name else Value;
    var q := p.(source := PiecesText(xs) + [QUOTE] + s, states := p.states + [kind], allowed := IN_STRING, isString := true);
    assert p.source[1..] == q.source;
    BeginStep(rt, p);
    Skip(rt, p, q);
    assert q.source == PiecesText(xs) + ([QUOTE] + s);
    var h := ScanPieces(rt, q, xs, [QUOTE] + s);
    var r := q.(source := [QUOTE] + s, text := [] + Decode(rt, xs), hexStart := h);
    assert [] + Decode(rt, xs) == Decode(rt, xs) && r.source[1..] == s && r.states[..|r.states| - 1] == p.states;
    EndStep(rt, r);
    Stop(rt, r, r.(source := s, states := p.states, allowed := if kind == Name then COLON_EXPECTED else AFTER_VALUE), kind);
  }

  lemma BeginStep(rt: Runtime, p: Parser)
    requires p.source != [] && p.source[0] == QUOTE && !p.allowed.stringChar
    requires p.allowed.beginName || p.allowed.beginValue
    ensures Step(rt, p) == Continue(p.(source := p.source[1..], allowed := IN_STRING, isString := true,
                                       states := p.states + [if p.allowed.beginName then Name else Value]))
  {
  }

  lemma EndStep(rt: Runtime, p: Parser)
    requires p.source != [] && p.source[0] == QUOTE && p.allowed == IN_STRING
    requires |p.states| >= 2 && (TopIs(p, Name) || TopIs(p, Value))
    ensures Step(rt, p) == Emit(p.(source := p.source[1..], states := p.states[..|p.states| - 1],
                                   allowed := if TopIs(p, Name) then COLON_EXPECTED else AFTER_VALUE),
                                if TopIs(p, Name) then Name else Value)
  {
  }

  // Outside strings.

  /** Without blanks nothing is dropped. */
  lemma {:induction false} SqueezedPlain(cs: Text)
    requires forall i :: 0 <= i < |cs| ==> !IsWhitespace(cs[i])
    ensures Squeezed(cs) == cs
  {
    if cs != [] {
      SqueezedPlain(cs[1..]);
    }
  }

  predicate IsEnd(c: Unit) {
    c == COMMA || c == RBRACKET || c == RBRACE
  }

  lemma {:induction false} ScanScalar(rt: Runtime, p: Parser, cs: Text, s: Text)
    requires forall i :: 0 <= i < |cs| ==> IsScalarUnit(cs[i]) || IsWhitespace(cs[i])
    requires p.allowed == IN_SCALAR && p.source == cs + s
    ensures ReadNext(rt, p) == ReadNext(rt, p.(source := s, text := p.text + Squeezed(cs)))
    decreases |cs|
  {
    hide ReadNext;
    if cs == [] {
      assert p.source == s && p.text + Squeezed(cs) == p.text;
    } else {
      var u := if IsWhitespace(cs[0]) then [] else [cs[0]];
      var q := p.(source := cs[1..] + s, text := p.text + u);
      assert p.source[0] == cs[0] && p.source[1..] == q.source && p.text + [] == p.text;
      if IsWhitespace(cs[0]) {
        BlankStep(rt, p);
      } else {
        ScalarStep(rt, p);
      }
      Skip(rt, p, q);
      ScanScalar(rt, q, cs[1..], s);
      assert q.text + Squeezed(cs[1..]) == p.text + Squeezed(cs);
    }
  }

  lemma ScalarStep(rt: Runtime, p: Parser)
    requires p.source != [] && p.allowed == IN_SCALAR && IsScalarUnit(p.source[0])
    ensures Step(rt, p) == Continue(p.(source := p.source[1..], text := p.text + [p.source[0]]))
  {
  }

  lemma ScalarBeginStep(rt: Runtime, p: Parser)
    requires p.source != [] && p.allowed.beginValue && !p.allowed.nonStringChar && !p.allowed.stringChar
    requires IsScalarUnit(p.source[0])
    ensures Step(rt, p) == Continue(p.(source := p.source[1..], text := [p.source[0]], allowed := IN_SCALAR, states := p.states + [Value]))
  {
  }

  lemma ScalarEndStep(rt: Runtime, p: Parser)
    requires p.source != [] && p.allowed == IN_SCALAR && IsEnd(p.source[0]) && |p.states| >= 2 && TopIs(p, Value)
    ensures Step(rt, p) == Emit(p.(states := p.states[..|p.states| - 1], allowed := AFTER_VALUE), Value)
  {
  }

  /** A scalar ends only at the comma or bracket behind it, which stays unread. */
  lemma {:induction false} ReadScalar(rt: Runtime, p: Parser, cs: Text, w: Text, s: Text)
    requires Legal(rt, ScalarNode(cs)) && Blank(w) && s != [] && IsEnd(s[0]) && p.source == cs + w + s
    requires p.allowed.beginValue && !p.allowed.nonStringChar && !p.allowed.stringChar && p.states != []
    ensures ReadNext(rt, p).1 == Value
    ensures ReadNext(rt, p).0 == p.(source := s, text := Squeezed(cs), allowed := AFTER_VALUE)
  {
    hide ReadNext;
    var q := p.(source := cs[1..] + (w + s), text := [cs[0]], allowed := IN_SCALAR, states := p.states + [Value]);
    assert p.source[0] == cs[0] && p.source[1..] == q.source;
    ScalarBeginStep(rt, p);
    Skip(rt, p, q);
    ScanScalar(rt, q, cs[1..], w + s);
    assert [cs[0]] + Squeezed(cs[1..]) == Squeezed(cs);
    var r := q.(source := w + s, text := Squeezed(cs));
    SkipBlank(rt, r, w, s);
    var e := r.(source := s);
    assert e.states[..|e.states| - 1] == p.states;
    ScalarEndStep(rt, e);
    Stop(rt, e, e.(states := p.states, allowed := AFTER_VALUE), Value);
  }

  function Kind(n: Node): ParseState {
    if n.ArrayNode? then StartArray else if n.ObjectNode? then StartObject else Value
  }

  predicate IsContainerNode(n: Node) {
    n.ArrayNode? || n.ObjectNode?
  }

  function Body(n: Node): Text
    requires IsContainerNode(n)
  {
    match n
    case ArrayNode(pad, items) => ArrayBody(pad, items)
    case ObjectNode(pad, ms) => ObjectBody(pad, ms)
  }

  lemma {:induction false} OpenStep(rt: Runtime, p: Parser, n: Node, s: Text)
    requires IsContainerNode(n) && p.source == NodeText(n) + s
    requires p.allowed.startContainer && !p.allowed.stringChar
    ensures Step(rt, p) == Emit(p.(source := Body(n) + s, states := p.states + [Kind(n)], text := [], isString := false,
                                   allowed := if n.ArrayNode? then ARRAY_START else OBJECT_START), Kind(n))
  {
    hide ArrayBody, ObjectBody;
    assert p.source[1..] == Body(n) + s;
    assert TopIs(p.(states := p.states + [Kind(n)]), Kind(n));
  }

  /** Where a value is expected, an item is one token, and leaves the parser behind it or inside it. */
  lemma {:induction false} ReadItem(rt: Runtime, p: Parser, it: Item, s: Text)
    requires LegalItem(rt, it) && p.source == ItemText(it) + s && s != [] && IsEnd(s[0])
    requires p.allowed == VALUE_EXPECTED || p.allowed == ARRAY_START
    requires p.states != [] && p.text == [] && !p.isString
    ensures ReadNext(rt, p).1 == Kind(it.value)
    ensures var q := ReadNext(rt, p).0;
            if IsContainerNode(it.value) then
              q.source == Body(it.value) + it.after + s && q.states == p.states + [Kind(it.value)] && q.text == [] && !q.isString
              && q.allowed == if it.value.ArrayNode? then ARRAY_START else OBJECT_START
            else
              (q.source == s || q.source == it.after + s) && q.states == p.states && q.allowed == AFTER_VALUE
              && Classify(rt, q) == Raw(rt, it.value)
  {
    hide ReadNext, Step, ArrayBody, ObjectBody, PiecesText;
    var s1 := it.after + s;
    assert p.source == it.before + (NodeText(it.value) + s1);
    SkipBlank(rt, p, it.before, NodeText(it.value) + s1);
    var p1 := p.(source := NodeText(it.value) + s1);
    match it.value
    case StringNode(xs) =>
      ReadQuoted(rt, p1, xs, s1);
    case ScalarNode(cs) =>
      assert p1.source == cs + it.after + s;
      ReadScalar(rt, p1, cs, it.after, s);
    case _ =>
      OpenStep(rt, p1, it.value, s1);
      var q := p1.(source := Body(it.value) + s1, states := p1.states + [Kind(it.value)], text := [], isString := false,
                   allowed := if it.value.ArrayNode? then ARRAY_START else OBJECT_START);
      Stop(rt, p1, q, Kind(it.value));
      assert Body(it.value) + s1 == Body(it.value) + it.after + s;
  }

  /** A comma after an item leads on to the next item. */
  lemma {:induction false} ReadComma(rt: Runtime, p: Parser, w: Text, s: Text)
    requires Blank(w) && p.source == w + [COMMA] + s && p.allowed == AFTER_VALUE
    requires TopIs(p, StartArray) || TopIs(p, StartObject)
    ensures ReadNext(rt, p) == ReadNext(rt, p.(source := s, text := [], isString := false,
                                               allowed := if TopIs(p, StartArray) then VALUE_EXPECTED else NAME_EXPECTED))
  {
    hide ReadNext;
    assert p.source == w + ([COMMA] + s);
    SkipBlank(rt, p, w, [COMMA] + s);
    var q := p.(source := [COMMA] + s);
    assert q.source[1..] == s;
    CommaStep(rt, q);
    Skip(rt, q, q.(source := s, text := [], isString := false,
                   allowed := if TopIs(p, StartArray) then VALUE_EXPECTED else NAME_EXPECTED));
  }

  lemma CommaStep(rt: Runtime, p: Parser)
    requires p.source != [] && p.source[0] == COMMA && p.allowed == AFTER_VALUE
    requires TopIs(p, StartArray) || TopIs(p, StartObject)
    ensures Step(rt, p) == Continue(p.(source := p.source[1..], text := [], isString := false,
                                       allowed := if TopIs(p, StartArray) then VALUE_EXPECTED else NAME_EXPECTED))
  {
  }

  /** The bracket of the innermost container closes it. */
  lemma {:induction false} ReadClose(rt: Runtime, p: Parser, w: Text, s: Text)
    requires Blank(w) && p.allowed.endContainer && !p.allowed.stringChar
    requires (TopIs(p, StartArray) && p.source == w + [RBRACKET] + s) || (TopIs(p, StartObject) && p.source == w + [RBRACE] + s)
    ensures ReadNext(rt, p).1 == if TopIs(p, StartArray) then EndArray else EndObject
    ensures ReadNext(rt, p).0 == p.(source := s, text := [], isString := false, states := p.states[..|p.states| - 1],
                                    allowed := if |p.states| == 1 then NONE else AFTER_VALUE)
  {
    hide ReadNext;
    var c := if TopIs(p, StartArray) then RBRACKET else RBRACE;
    assert p.source == w + ([c] + s);
    SkipBlank(rt, p, w, [c] + s);
    var q := p.(source := [c] + s);
    assert q.source[1..] == s;
    CloseStep(rt, q);
    Stop(rt, q, p.(source := s, text := [], isString := false, states := p.states[..|p.states| - 1],
                   allowed := if |p.states| == 1 then NONE else AFTER_VALUE),
         if TopIs(p, StartArray) then EndArray else EndObject);
  }

  lemma CloseStep(rt: Runtime, p: Parser)
    requires p.source != [] && p.allowed.endContainer && !p.allowed.stringChar
    requires (TopIs(p, StartArray) && p.source[0] == RBRACKET) || (TopIs(p, StartObject) && p.source[0] == RBRACE)
    ensures Step(rt, p) == Emit(p.(source := p.source[1..], text := [], isString := false, states := p.states[..|p.states| - 1],
                                   allowed := if |p.states| == 1 then NONE else AFTER_VALUE),
                                if TopIs(p, StartArray) then EndArray else EndObject)
  {
  }

  /** Where a name is expected, a member gives its name and then its value. */
  lemma {:induction false} ReadName(rt: Runtime, p: Parser, m: Member, s: Text)
    requires LegalMember(rt, m) && p.source == MemberText(m) + s
    requires p.allowed == NAME_EXPECTED || p.allowed == OBJECT_START
    requires p.states != [] && p.text == []
    ensures ReadNext(rt, p).1 == Name
    ensures var q := ReadNext(rt, p).0;
            q.source == m.gap + [COLON] + ItemText(m.item) + s && q.text == Decode(rt, m.name) && q.isString
            && q.states == p.states && q.allowed == COLON_EXPECTED
  {
    hide ReadNext, ItemText;
    var s1 := m.gap + [COLON] + ItemText(m.item) + s;
    assert p.source == m.lead + (Quoted(m.name) + s1);
    SkipBlank(rt, p, m.lead, Quoted(m.name) + s1);
    ReadQuoted(rt, p.(source := Quoted(m.name) + s1), m.name, s1);
  }

  lemma {:induction false} ReadColon(rt: Runtime, p: Parser, w: Text, s: Text)
    requires Blank(w) && p.source == w + [COLON] + s && p.allowed == COLON_EXPECTED
    ensures ReadNext(rt, p) == ReadNext(rt, p.(source := s, text := [], isString := false, allowed := VALUE_EXPECTED))
  {
    hide ReadNext;
    assert p.source == w + ([COLON] + s);
    SkipBlank(rt, p, w, [COLON] + s);
    var q := p.(source := [COLON] + s);
    assert q.source[1..] == s;
    ColonStep(rt, q);
    Skip(rt, q, q.(source := s, text := [], isString := false, allowed := VALUE_EXPECTED));
  }

  lemma ColonStep(rt: Runtime, p: Parser)
    requires p.source != [] && p.source[0] == COLON && p.allowed == COLON_EXPECTED
    ensures Step(rt, p) == Continue(p.(source := p.source[1..], text := [], isString := false, allowed := VALUE_EXPECTED))
  {
  }
}
