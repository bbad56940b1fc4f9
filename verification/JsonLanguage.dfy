/** The language the tokenizer accepts: exactly the texts that begin, behind blanks, with a legal array or object. */
module JsonLanguage {
  import opened JSValues
  import opened JsonTokens
  import opened JsonSyntax
  import opened Cursors
  import opened ReadFroms
  import Bisimulation

  /** The root has been closed. */
  predicate Closed(p: Parser) {
    p.states == [] && p.allowed == NONE
  }

  lemma StringStepDescends(rt: Runtime, p: Parser, ch: Unit)
    requires p.source != [] && p.source[0] == ch
    ensures match StringStep(rt, p, ch)
            case Continue(q) => |q.source| < |p.source|
            case Emit(q, t) => |q.source| < |p.source| || IsError(t)
  {
    hide DecodeHex;
  }

  lemma StepDescends(rt: Runtime, p: Parser)
    requires p.source != []
    ensures match Step(rt, p)
            case Continue(q) => |q.source| < |p.source|
            case Emit(q, t) => |q.source| < |p.source| || IsError(t) || (q.source == p.source && |q.states| < |p.states|)
  {
    hide StringStep;
    StringStepDescends(rt, p, p.source[0]);
  }

  /** Character by character, without an error, to the end of the root. */
  predicate Completes(rt: Runtime, p: Parser)
    decreases |p.source|, |p.states|
  {
    || Closed(p)
    || (p.source != []
        && (StepDescends(rt, p);
            match Step(rt, p)
            case Continue(q) => Completes(rt, q)
            case Emit(q, t) => !IsError(t) && Completes(rt, q)))
  }

  lemma HexStaysOpen(rt: Runtime, p: Parser, ch: Unit)
    requires p.allowed.stringChar && HexChar(rt, p, ch).Continue?
    ensures HexChar(rt, p, ch).next.allowed.stringChar
  {
    hide DecodeHex;
  }

  lemma EscapeStaysOpen(p: Parser, ch: Unit)
    requires p.allowed.stringChar && EscapeChar(p, ch).Continue?
    ensures EscapeChar(p, ch).next.allowed.stringChar
  {
    if ch == LOWER_U {
      IncKeepsFlags(p.(allowed := p.allowed.(escapeChar := false, escapeCharHex := true), hexStart := |p.text|));
      hide Unescape, Inc;
    } else if Unescape(ch).Some? {
      IncKeepsFlags(p.(text := p.text + [Unescape(ch).value], allowed := p.allowed.(escapeChar := false)));
      hide Unescape, Inc;
    }
  }

  lemma IncKeepsFlags(p: Parser)
    ensures Inc(p).allowed == p.allowed
  {
  }

  lemma StringStaysOpen(rt: Runtime, p: Parser, ch: Unit)
    requires p.allowed.stringChar && StringStep(rt, p, ch).Continue?
    ensures StringStep(rt, p, ch).next.allowed.stringChar
  {
    hide HexChar, EscapeChar;
    if p.allowed.escapeChar {
      EscapeStaysOpen(p, ch);
    } else if p.allowed.escapeCharHex {
      HexStaysOpen(rt, p, ch);
    }
  }

  lemma ContinueStaysOpen(rt: Runtime, p: Parser)
    requires p.source != [] && !Closed(p) && Step(rt, p).Continue?
    ensures !Closed(Step(rt, p).next)
  {
    hide StringStep;
    if p.allowed.stringChar {
      StringStaysOpen(rt, p, p.source[0]);
    }
  }

  /** The same token by token. */
  lemma {:induction false} TokenWise(rt: Runtime, p: Parser)
    requires !Closed(p)
    ensures Completes(rt, p) <==> !IsError(ReadNext(rt, p).1) && Completes(rt, ReadNext(rt, p).0)
    decreases |p.source|
  {
    hide Step, Closed;
    if p.source != [] {
      StepDescends(rt, p);
      if Step(rt, p).Continue? {
        ContinueStaysOpen(rt, p);
        TokenWise(rt, Step(rt, p).next);
      }
    }
  }

  lemma SameTokens(rt: Runtime, p: Parser, q: Parser)
    requires !Closed(p) && !Closed(q) && ReadNext(rt, p) == ReadNext(rt, q)
    ensures Completes(rt, p) == Completes(rt, q)
  {
    hide ReadNext, Completes, Closed;
    TokenWise(rt, p);
    TokenWise(rt, q);
  }

  // ---------- legal texts are accepted ----------

  // Behind an item, in front of the comma or bracket that follows.
  predicate Behind(p: Parser, q: Parser, s: Text) {
    q.source == s && q.states == p.states && q.allowed == AFTER_VALUE
  }

  lemma SkipAfter(rt: Runtime, p: Parser, w: Text, s: Text)
    requires p.states != [] && p.allowed == AFTER_VALUE && Blank(w) && p.source == w + s
    ensures Completes(rt, p) == Completes(rt, p.(source := s))
  {
    hide ReadNext, Completes;
    SkipBlank(rt, p, w, s);
    SameTokens(rt, p, p.(source := s));
  }

  lemma {:induction false} ItemForward(rt: Runtime, p: Parser, it: Item, s: Text) returns (q: Parser)
    requires LegalItem(rt, it) && p.source == ItemText(it) + s && s != [] && IsEnd(s[0])
    requires p.allowed == VALUE_EXPECTED || p.allowed == ARRAY_START
    requires p.states != [] && p.text == [] && !p.isString
    ensures Behind(p, q, s) && Completes(rt, p) == Completes(rt, q)
    decreases it, 2
  {
    hide ReadNext, Completes, ArrayBody, ObjectBody, Classify, Raw;
    ReadItem(rt, p, it, s);
    TokenWise(rt, p);
    var r := ReadNext(rt, p).0;
    var n := it.value;
    if IsContainerNode(n) {
      assert Body(n) + it.after + s == Body(n) + (it.after + s);
      var e := BodyForward(rt, r, n, it.after + s);
      assert r.states[..|r.states| - 1] == p.states;
      SkipAfter(rt, e, it.after, s);
      q := e.(source := s);
    } else {
      if r.source != s {
        SkipAfter(rt, r, it.after, s);
      }
      q := r.(source := s);
    }
  }

  /** From behind the opening bracket to behind the closing one. */
  lemma {:induction false} BodyForward(rt: Runtime, p: Parser, n: Node, s: Text) returns (q: Parser)
    requires IsContainerNode(n) && Legal(rt, n) && p.source == Body(n) + s && TopIs(p, Kind(n)) && p.text == [] && !p.isString
    requires p.allowed == if n.ArrayNode? then ARRAY_START else OBJECT_START
    ensures q.source == s && q.states == p.states[..|p.states| - 1]
    ensures q.allowed == if |p.states| == 1 then NONE else AFTER_VALUE
    ensures Completes(rt, p) == Completes(rt, q)
    decreases n, 1
  {
    hide Completes, ItemText, MemberText, ReadNext;
    match n
    case ArrayNode(pad, items) =>
      if items == [] {
        q := CloseForward(rt, p, pad, s);
      } else {
        var rest := ArrayRest(items[1..]) + s;
        assert p.source == ItemText(items[0]) + rest;
        RestStarts(items[1..], s);
        assert LegalItem(rt, items[0]);
        var r := ItemForward(rt, p, items[0], rest);
        q := ArrayForward(rt, r, items[1..], s);
      }
    case ObjectNode(pad, ms) =>
      if ms == [] {
        q := CloseForward(rt, p, pad, s);
      } else {
        var rest := ObjectRest(ms[1..]) + s;
        assert p.source == MemberText(ms[0]) + rest;
        MembersStart(ms[1..], s);
        assert LegalMember(rt, ms[0]);
        var r := MemberForward(rt, p, ms[0], rest);
        q := ObjectForward(rt, r, ms[1..], s);
      }
  }

  lemma RestStarts(items: seq<Item>, s: Text)
    ensures ArrayRest(items) + s != [] && IsEnd((ArrayRest(items) + s)[0])
  {
    hide ItemText;
  }

  lemma MembersStart(ms: seq<Member>, s: Text)
    ensures ObjectRest(ms) + s != [] && IsEnd((ObjectRest(ms) + s)[0])
  {
    hide MemberText;
  }

  lemma CloseForward(rt: Runtime, p: Parser, w: Text, s: Text) returns (q: Parser)
    requires Blank(w) && p.allowed.endContainer && !p.allowed.stringChar
    requires (TopIs(p, StartArray) && p.source == w + [RBRACKET] + s) || (TopIs(p, StartObject) && p.source == w + [RBRACE] + s)
    ensures q.source == s && q.states == p.states[..|p.states| - 1]
    ensures q.allowed == if |p.states| == 1 then NONE else AFTER_VALUE
    ensures Completes(rt, p) == Completes(rt, q)
  {
    hide ReadNext, Completes;
    ReadClose(rt, p, w, s);
    TokenWise(rt, p);
    q := ReadNext(rt, p).0;
  }

  lemma CommaForward(rt: Runtime, p: Parser, s: Text) returns (q: Parser)
    requires p.source == [COMMA] + s && p.allowed == AFTER_VALUE && (TopIs(p, StartArray) || TopIs(p, StartObject))
    ensures q == p.(source := s, text := [], isString := false, allowed := if TopIs(p, StartArray) then VALUE_EXPECTED else NAME_EXPECTED)
    ensures Completes(rt, p) == Completes(rt, q)
  {
    hide ReadNext, Completes;
    assert p.source == [] + [COMMA] + s;
    ReadComma(rt, p, [], s);
    q := p.(source := s, text := [], isString := false, allowed := if TopIs(p, StartArray) then VALUE_EXPECTED else NAME_EXPECTED);
    SameTokens(rt, p, q);
  }

  lemma {:induction false} ArrayForward(rt: Runtime, p: Parser, items: seq<Item>, s: Text) returns (q: Parser)
    requires (forall i :: 0 <= i < |items| ==> LegalItem(rt, items[i])) && p.source == ArrayRest(items) + s
    requires TopIs(p, StartArray) && p.allowed == AFTER_VALUE
    ensures q.source == s && q.states == p.states[..|p.states| - 1]
    ensures q.allowed == if |p.states| == 1 then NONE else AFTER_VALUE
    ensures Completes(rt, p) == Completes(rt, q)
    decreases items, 0
  {
    hide Completes, ItemText, LegalItem;
    if items == [] {
      assert p.source == [] + [RBRACKET] + s;
      q := CloseForward(rt, p, [], s);
    } else {
      var rest := ArrayRest(items[1..]) + s;
      assert p.source == [COMMA] + (ItemText(items[0]) + rest);
      RestStarts(items[1..], s);
      var r := CommaForward(rt, p, ItemText(items[0]) + rest);
      r := ItemForward(rt, r, items[0], rest);
      q := ArrayForward(rt, r, items[1..], s);
    }
  }

  /** A name, its colon and its value. */
  lemma {:induction false} MemberForward(rt: Runtime, p: Parser, m: Member, s: Text) returns (q: Parser)
    requires LegalMember(rt, m) && p.source == MemberText(m) + s && s != [] && IsEnd(s[0])
    requires p.allowed == NAME_EXPECTED || p.allowed == OBJECT_START
    requires p.states != [] && p.text == []
    ensures Behind(p, q, s) && Completes(rt, p) == Completes(rt, q)
    decreases m, 3
  {
    hide Completes, ReadNext, ItemText, Decode;
    ReadName(rt, p, m, s);
    TokenWise(rt, p);
    var r := ReadNext(rt, p).0;
    assert r.source == m.gap + [COLON] + (ItemText(m.item) + s);
    ReadColon(rt, r, m.gap, ItemText(m.item) + s);
    var v := r.(source := ItemText(m.item) + s, text := [], isString := false, allowed := VALUE_EXPECTED);
    SameTokens(rt, r, v);
    q := ItemForward(rt, v, m.item, s);
  }

  lemma {:induction false} ObjectForward(rt: Runtime, p: Parser, ms: seq<Member>, s: Text) returns (q: Parser)
    requires (forall i :: 0 <= i < |ms| ==> LegalMember(rt, ms[i])) && p.source == ObjectRest(ms) + s
    requires TopIs(p, StartObject) && p.allowed == AFTER_VALUE
    ensures q.source == s && q.states == p.states[..|p.states| - 1]
    ensures q.allowed == if |p.states| == 1 then NONE else AFTER_VALUE
    ensures Completes(rt, p) == Completes(rt, q)
    decreases ms, 0
  {
    hide Completes, MemberText, LegalMember;
    if ms == [] {
      assert p.source == [] + [RBRACE] + s;
      q := CloseForward(rt, p, [], s);
    } else {
      var rest := ObjectRest(ms[1..]) + s;
      assert p.source == [COMMA] + (MemberText(ms[0]) + rest);
      MembersStart(ms[1..], s);
      var r := CommaForward(rt, p, MemberText(ms[0]) + rest);
      r := MemberForward(rt, r, ms[0], rest);
      q := ObjectForward(rt, r, ms[1..], s);
    }
  }

  // ---------- accepted texts are legal ----------

  lemma OneStep(rt: Runtime, p: Parser)
    requires Completes(rt, p) && !Closed(p)
    ensures p.source != [] && Completes(rt, Step(rt, p).next)
    ensures Step(rt, p).Continue? ==> |Step(rt, p).next.source| < |p.source|
    ensures Step(rt, p).Emit? ==> !IsError(Step(rt, p).token)
  {
    hide Step, Closed;
    if p.source != [] {
      StepDescends(rt, p);
    }
  }

  /** Outside strings, blanks come first. */
  lemma {:induction false} BlankSplit(rt: Runtime, p: Parser) returns (w: Text, s: Text)
    requires Completes(rt, p) && !Closed(p) && !p.allowed.stringChar
    ensures p.source == w + s && Blank(w) && s != [] && !IsWhitespace(s[0])
    ensures Completes(rt, p.(source := s)) && |s| <= |p.source|
    decreases |p.source|
  {
    OneStep(rt, p);
    hide Completes;
    if IsWhitespace(p.source[0]) {
      BlankStep(rt, p);
      hide Step;
      var q := p.(source := p.source[1..]);
      w, s := BlankSplit(rt, q);
      w := [p.source[0]] + w;
    } else {
      w, s := [], p.source;
    }
  }

  // Strings.

  lemma HexSplit(rt: Runtime, p: Parser)
    requires Completes(rt, p) && p.allowed == IN_HEX && p.hexStart == |p.text|
    ensures |p.source| >= HEX_CHAR_COUNT && DecodeHex(rt, p.source[..HEX_CHAR_COUNT]).Some?
  {
    hide Completes, DecodeHex, Step;
    OneStep(rt, p);
    HexDigitStep(rt, p);
    var p1 := p.(source := p.source[1..], text := p.text + [p.source[0]]);
    OneStep(rt, p1);
    HexDigitStep(rt, p1);
    var p2 := p1.(source := p1.source[1..], text := p1.text + [p1.source[0]]);
    OneStep(rt, p2);
    HexDigitStep(rt, p2);
    var p3 := p2.(source := p2.source[1..], text := p2.text + [p2.source[0]]);
    OneStep(rt, p3);
    HexLastInverse(rt, p3);
    assert (p3.text + [p3.source[0]])[p.hexStart..] == p.source[..HEX_CHAR_COUNT];
  }

  lemma HexLastInverse(rt: Runtime, p: Parser)
    requires p.source != [] && p.allowed == IN_HEX && |p.text| + 1 == p.hexStart + HEX_CHAR_COUNT
    requires Step(rt, p).Continue? || !IsError(Step(rt, p).token)
    ensures DecodeHex(rt, (p.text + [p.source[0]])[p.hexStart..]).Some?
  {
    hide DecodeHex;
  }

  lemma EscapeInverse(rt: Runtime, p: Parser)
    requires p.source != [] && p.allowed == IN_ESCAPE && (Step(rt, p).Continue? || !IsError(Step(rt, p).token))
    ensures p.source[0] == LOWER_U || Unescape(p.source[0]).Some?
  {
  }

  lemma EscapeSplit(rt: Runtime, p: Parser) returns (x: Piece, s: Text)
    requires Completes(rt, p) && p.allowed == IN_ESCAPE
    ensures LegalPiece(rt, x) && [BACKSLASH] + p.source == PieceText(x) + s && |s| < |p.source|
  {
    hide Completes, Step, DecodeHex;
    OneStep(rt, p);
    var c := p.source[0];
    EscapeInverse(rt, p);
    if c == LOWER_U {
      HexEntryStep(rt, p);
      var r := p.(source := p.source[1..], allowed := IN_HEX, hexStart := |p.text|);
      HexSplit(rt, r);
      var d := r.source[..HEX_CHAR_COUNT];
      x, s := Hex(d), r.source[HEX_CHAR_COUNT..];
      assert p.source == [LOWER_U] + r.source && r.source == d + s;
      assert [BACKSLASH] + p.source == [BACKSLASH, LOWER_U] + d + s;
    } else {
      x, s := Escape(c), p.source[1..];
      assert p.source == [c] + s;
    }
  }

  /** The piece a string goes on with, if it does not end. */
  lemma PieceSplit(rt: Runtime, p: Parser) returns (x: Piece, s: Text)
    requires Completes(rt, p) && p.allowed == IN_STRING && p.source != [] && p.source[0] != QUOTE
    ensures LegalPiece(rt, x) && p.source == PieceText(x) + s && |s| < |p.source|
  {
    hide Completes, Step, DecodeHex;
    if p.source[0] == BACKSLASH {
      hide LegalPiece, PieceText;
      OneStep(rt, p);
      BackslashStep(rt, p);
      x, s := EscapeSplit(rt, p.(source := p.source[1..], allowed := IN_ESCAPE));
      assert p.source == [BACKSLASH] + p.source[1..];
    } else {
      x, s := Plain(p.source[0]), p.source[1..];
    }
  }

  /** A string goes on to a closing quote. */
  lemma {:induction false} StringSplit(rt: Runtime, p: Parser) returns (xs: seq<Piece>, s: Text)
    requires Completes(rt, p) && p.allowed == IN_STRING
    ensures LegalPieces(rt, xs) && p.source == PiecesText(xs) + [QUOTE] + s && |s| < |p.source|
    decreases |p.source|
  {
    hide Completes, Step, LegalPiece, PieceText, PieceUnit;
    OneStep(rt, p);
    if p.source[0] == QUOTE {
      xs, s := [], p.source[1..];
    } else {
      var x, rest := PieceSplit(rt, p);
      var h := ScanPiece(rt, p, x, rest);
      var q := p.(source := rest, text := p.text + [PieceUnit(rt, x)], hexStart := h);
      SameTokens(rt, p, q) by { hide ReadNext; }
      var ys;
      ys, s := StringSplit(rt, q);
      xs := [x] + ys;
      assert xs[1..] == ys;
      assert p.source == PieceText(x) + (PiecesText(ys) + [QUOTE] + s) == PieceText(x) + PiecesText(ys) + [QUOTE] + s;
    }
  }

  /** A quoted text where one may begin; it ends as ReadQuoted says. */
  lemma {:induction false} QuotedSplit(rt: Runtime, p: Parser) returns (xs: seq<Piece>, s: Text)
    requires Completes(rt, p) && p.source != [] && p.source[0] == QUOTE && !p.allowed.stringChar
    requires p.allowed.beginName || p.allowed.beginValue
    ensures LegalPieces(rt, xs) && p.source == Quoted(xs) + s && |s| < |p.source|
  {
    hide Completes, Step, PiecesText;
    OneStep(rt, p);
    BeginStep(rt, p);
    var q := p.(source := p.source[1..], allowed := IN_STRING, isString := true,
                states := p.states + [if p.allowed.beginName then Name else Value]);
    xs, s := StringSplit(rt, q);
    assert p.source == [QUOTE] + q.source;
  }

  // Unquoted scalars.

  lemma ScalarInverse(rt: Runtime, p: Parser)
    requires p.source != [] && p.allowed == IN_SCALAR && (Step(rt, p).Continue? || !IsError(Step(rt, p).token))
    ensures IsWhitespace(p.source[0]) || IsScalarUnit(p.source[0]) || IsEnd(p.source[0])
  {
  }

  lemma {:induction false} ScalarSplit(rt: Runtime, p: Parser) returns (cs: Text, s: Text)
    requires Completes(rt, p) && p.allowed == IN_SCALAR
    ensures p.source == cs + s && s != [] && IsEnd(s[0]) && |s| <= |p.source|
    ensures forall i :: 0 <= i < |cs| ==> IsScalarUnit(cs[i]) || IsWhitespace(cs[i])
    decreases |p.source|
  {
    hide Completes, Step;
    OneStep(rt, p);
    ScalarInverse(rt, p);
    if IsEnd(p.source[0]) {
      cs, s := [], p.source;
    } else {
      var q := p.(source := p.source[1..]);
      if IsWhitespace(p.source[0]) {
        BlankStep(rt, p);
      } else {
        ScalarStep(rt, p);
        q := q.(text := p.text + [p.source[0]]);
      }
      cs, s := ScalarSplit(rt, q);
      cs := [p.source[0]] + cs;
      assert p.source == [p.source[0]] + q.source;
    }
  }

  // Values.

  /** What may stand where a value is expected. */
  lemma ValueInverse(rt: Runtime, p: Parser)
    requires p.source != [] && (p.allowed == VALUE_EXPECTED || p.allowed == ARRAY_START) && !IsWhitespace(p.source[0])
    requires Step(rt, p).Continue? || !IsError(Step(rt, p).token)
    requires !(TopIs(p, StartArray) && p.source[0] == RBRACKET && p.allowed == ARRAY_START)
    requires !TopIs(p, Value) && (p.allowed == ARRAY_START ==> TopIs(p, StartArray))
    ensures p.source[0] == QUOTE || p.source[0] == LBRACKET || p.source[0] == LBRACE || IsScalarUnit(p.source[0])
  {
  }

  lemma AfterInverse(rt: Runtime, p: Parser)
    requires p.source != [] && p.allowed == AFTER_VALUE && !IsWhitespace(p.source[0])
    requires Step(rt, p).Continue? || !IsError(Step(rt, p).token)
    ensures IsEnd(p.source[0])
  {
  }

  /** Behind a value come blanks and then a comma or a bracket. */
  lemma AfterSplit(rt: Runtime, p: Parser) returns (w: Text, s: Text)
    requires Completes(rt, p) && p.allowed == AFTER_VALUE
    ensures p.source == w + s && Blank(w) && s != [] && IsEnd(s[0]) && |s| <= |p.source|
  {
    hide Completes, Step;
    w, s := BlankSplit(rt, p);
    OneStep(rt, p.(source := s));
    AfterInverse(rt, p.(source := s));
  }

  // A parser in front of a value, or of the first item of an array.
  predicate AtValue(p: Parser) {
    && (p.allowed == VALUE_EXPECTED || p.allowed == ARRAY_START) && p.states != [] && p.text == [] && !p.isString
    && !TopIs(p, Value) && (p.allowed == ARRAY_START ==> TopIs(p, StartArray))
  }

  /** The value itself, with what follows it left as it is. */
  lemma {:induction false} NodeSplit(rt: Runtime, p: Parser) returns (n: Node, after: Text, s: Text)
    requires Completes(rt, p) && AtValue(p) && p.source != [] && !IsWhitespace(p.source[0])
    requires !(p.source[0] == RBRACKET && p.allowed == ARRAY_START)
    ensures Legal(rt, n) && Blank(after) && p.source == NodeText(n) + after + s && s != [] && IsEnd(s[0]) && |s| < |p.source|
    decreases |p.source|, 1
  {
    hide Completes, Step, ReadNext, Decode, PiecesText, ArrayBody, ObjectBody;
    OneStep(rt, p);
    ValueInverse(rt, p);
    var c := p.source[0];
    if c == QUOTE {
      var xs, rest := QuotedSplit(rt, p);
      n := StringNode(xs);
      ReadQuoted(rt, p, xs, rest);
      TokenWise(rt, p);
      after, s := AfterSplit(rt, ReadNext(rt, p).0);
      assert p.source == NodeText(n) + (after + s);
    } else if c == LBRACKET || c == LBRACE {
      n, after, s := ContainerSplit(rt, p);
    } else {
      ScalarBeginStep(rt, p);
      var q := p.(source := p.source[1..], text := [c], allowed := IN_SCALAR, states := p.states + [Value]);
      var cs;
      cs, s := ScalarSplit(rt, q);
      n, after := ScalarNode([c] + cs), [];
      assert p.source == [c] + q.source;
    }
  }

  lemma OpenAny(rt: Runtime, p: Parser)
    requires p.source != [] && (p.source[0] == LBRACKET || p.source[0] == LBRACE)
    requires p.allowed.startContainer && !p.allowed.stringChar
    ensures var kind := if p.source[0] == LBRACKET then StartArray else StartObject;
            Step(rt, p) == Emit(p.(source := p.source[1..], states := p.states + [kind], text := [], isString := false,
                                   allowed := if kind == StartArray then ARRAY_START else OBJECT_START), kind)
  {
    var kind := if p.source[0] == LBRACKET then StartArray else StartObject;
    assert TopIs(p.(states := p.states + [kind]), kind);
  }

  lemma {:induction false} ContainerSplit(rt: Runtime, p: Parser) returns (n: Node, after: Text, s: Text)
    requires Completes(rt, p) && AtValue(p) && p.source != [] && (p.source[0] == LBRACKET || p.source[0] == LBRACE)
    ensures Legal(rt, n) && Blank(after) && p.source == NodeText(n) + after + s && s != [] && IsEnd(s[0]) && |s| < |p.source|
    decreases |p.source|, 0
  {
    hide Completes, Step, ArrayBody, ObjectBody;
    OneStep(rt, p);
    OpenAny(rt, p);
    var kind := if p.source[0] == LBRACKET then StartArray else StartObject;
    var q := p.(source := p.source[1..], states := p.states + [kind], text := [], isString := false,
                allowed := if kind == StartArray then ARRAY_START else OBJECT_START);
    var rest;
    n, rest := BodySplit(rt, q);
    var e := BodyForward(rt, q, n, rest);
    after, s := AfterSplit(rt, e);
    assert p.source == [p.source[0]] + (Body(n) + rest) && rest == after + s;
    assert p.source == NodeText(n) + after + s;
  }

  /** The inside of a container, to its closing bracket. */
  lemma {:induction false} BodySplit(rt: Runtime, p: Parser) returns (n: Node, s: Text)
    requires Completes(rt, p) && (TopIs(p, StartArray) || TopIs(p, StartObject)) && p.text == [] && !p.isString
    requires p.allowed == if TopIs(p, StartArray) then ARRAY_START else OBJECT_START
    ensures IsContainerNode(n) && TopIs(p, Kind(n)) && Legal(rt, n) && p.source == Body(n) + s && |s| < |p.source|
    decreases |p.source|, 4
  {
    hide Completes, Legal, ArrayBody, ObjectBody;
    var w, rest := BlankSplit(rt, p);
    if TopIs(p, StartArray) {
      var items;
      items, s := ItemsSplit(rt, p, w, rest);
      n := ArrayNode(w, items);
    } else {
      var ms;
      ms, s := MembersSplit(rt, p, w, rest);
      n := ObjectNode(w, ms);
    }
  }

  // A parser in front of blanks and what comes behind them.
  ghost predicate Ahead(rt: Runtime, p: Parser, w: Text, rest: Text) {
    p.source == w + rest && Blank(w) && rest != [] && !IsWhitespace(rest[0]) && Completes(rt, p.(source := rest))
  }

  lemma {:induction false} ItemsSplit(rt: Runtime, p: Parser, w: Text, rest: Text) returns (items: seq<Item>, s: Text)
    requires Completes(rt, p) && TopIs(p, StartArray) && p.text == [] && !p.isString && p.allowed == ARRAY_START && Ahead(rt, p, w, rest)
    ensures Legal(rt, ArrayNode(w, items)) && p.source == ArrayBody(w, items) + s && |s| < |p.source|
    decreases |p.source|, 3
  {
    hide Completes, ItemText, ArrayRest;
    if rest[0] == RBRACKET {
      items, s := [], rest[1..];
      assert p.source == w + [RBRACKET] + s;
    } else {
      var it, s1 := ItemSplit(rt, p, w, rest);
      var r := ItemForward(rt, p, it, s1);
      items, s := ArraySplit(rt, r);
      BodyOfItems(it, [it] + items, w, s1, s) by { assert ([it] + items)[1..] == items; }
      LegalItems(rt, w, it, items);
      items := [it] + items;
    }
  }

  lemma LegalItems(rt: Runtime, w: Text, it: Item, items: seq<Item>)
    requires Blank(w) && LegalItem(rt, it) && forall i :: 0 <= i < |items| ==> LegalItem(rt, items[i])
    ensures Legal(rt, ArrayNode(w, [it] + items))
  {
    var all := [it] + items;
    forall i | 0 <= i < |all| ensures LegalItem(rt, all[i]) {
    }
  }

  lemma LegalMembers(rt: Runtime, w: Text, m: Member, ms: seq<Member>)
    requires Blank(w) && LegalMember(rt, m) && forall i :: 0 <= i < |ms| ==> LegalMember(rt, ms[i])
    ensures Legal(rt, ObjectNode(w, [m] + ms))
  {
    var all := [m] + ms;
    forall i | 0 <= i < |all| ensures LegalMember(rt, all[i]) {
    }
  }

  lemma {:induction false} MembersSplit(rt: Runtime, p: Parser, w: Text, rest: Text) returns (ms: seq<Member>, s: Text)
    requires Completes(rt, p) && TopIs(p, StartObject) && p.text == [] && !p.isString && p.allowed == OBJECT_START && Ahead(rt, p, w, rest)
    ensures Legal(rt, ObjectNode(w, ms)) && p.source == ObjectBody(w, ms) + s && |s| < |p.source|
    decreases |p.source|, 3
  {
    hide Completes, MemberText, ObjectRest;
    if rest[0] == RBRACE {
      ms, s := [], rest[1..];
      assert p.source == w + [RBRACE] + s;
    } else {
      var m, s1 := MemberSplit(rt, p, w, rest);
      var r := MemberForward(rt, p, m, s1);
      ms, s := ObjectSplit(rt, r);
      BodyOfMembers(m, [m] + ms, w, s1, s) by { assert ([m] + ms)[1..] == ms; }
      LegalMembers(rt, w, m, ms);
      ms := [m] + ms;
    }
  }

  lemma BodyOfItems(it: Item, items: seq<Item>, w: Text, s1: Text, s: Text)
    requires items != [] && items[0] == it && s1 == ArrayRest(items[1..]) + s
    ensures ItemText(it) + s1 == ArrayBody(w, items) + s
  {
    hide ItemText, ArrayRest;
  }

  lemma BodyOfMembers(m: Member, ms: seq<Member>, w: Text, s1: Text, s: Text)
    requires ms != [] && ms[0] == m && s1 == ObjectRest(ms[1..]) + s
    ensures MemberText(m) + s1 == ObjectBody(w, ms) + s
  {
    hide MemberText, ObjectRest;
  }

  lemma {:induction false} ItemSplit(rt: Runtime, p: Parser, w: Text, rest: Text) returns (it: Item, s: Text)
    requires AtValue(p) && Ahead(rt, p, w, rest) && !(rest[0] == RBRACKET && p.allowed == ARRAY_START)
    ensures LegalItem(rt, it) && p.source == ItemText(it) + s && s != [] && IsEnd(s[0]) && |s| < |p.source|
    decreases |p.source|, 2
  {
    hide Completes, NodeText;
    var n, after, s1 := NodeSplit(rt, p.(source := rest));
    it, s := Item(w, n, after), s1;
    assert p.source == w + (NodeText(n) + after + s) == w + NodeText(n) + after + s;
  }

  lemma {:induction false} ArraySplit(rt: Runtime, p: Parser) returns (items: seq<Item>, s: Text)
    requires Completes(rt, p) && TopIs(p, StartArray) && p.allowed == AFTER_VALUE && p.source != [] && IsEnd(p.source[0])
    ensures (forall i :: 0 <= i < |items| ==> LegalItem(rt, items[i])) && p.source == ArrayRest(items) + s && |s| < |p.source|
    decreases |p.source|, 0
  {
    hide Completes, Step, ItemText, LegalItem;
    OneStep(rt, p);
    WrongBracket(rt, p);
    if p.source[0] == RBRACKET {
      items, s := [], p.source[1..];
    } else {
      assert p.source == [COMMA] + p.source[1..];
      var q := CommaForward(rt, p, p.source[1..]);
      var w, behind := BlankSplit(rt, q);
      var it, s1 := ItemSplit(rt, q, w, behind);
      var r := ItemForward(rt, q, it, s1);
      var rest;
      rest, s := ArraySplit(rt, r);
      items := [it] + rest;
      assert items[1..] == rest;
      assert p.source == [COMMA] + ItemText(it) + ArrayRest(rest) + s;
    }
  }

  /** A container is not closed by the other kind of bracket. */
  lemma WrongBracket(rt: Runtime, p: Parser)
    requires p.source != [] && p.allowed.endContainer && !p.allowed.stringChar && (TopIs(p, StartArray) || TopIs(p, StartObject))
    requires Step(rt, p).Continue? || !IsError(Step(rt, p).token)
    ensures p.source[0] != if TopIs(p, StartArray) then RBRACE else RBRACKET
  {
  }

  // Members.

  lemma NameInverse(rt: Runtime, p: Parser)
    requires p.source != [] && (p.allowed == NAME_EXPECTED || p.allowed == OBJECT_START) && !IsWhitespace(p.source[0])
    requires TopIs(p, StartObject) && !(p.source[0] == RBRACE && p.allowed == OBJECT_START)
    requires Step(rt, p).Continue? || !IsError(Step(rt, p).token)
    ensures p.source[0] == QUOTE
  {
  }

  lemma ColonInverse(rt: Runtime, p: Parser)
    requires p.source != [] && p.allowed == COLON_EXPECTED && !IsWhitespace(p.source[0])
    requires Step(rt, p).Continue? || !IsError(Step(rt, p).token)
    ensures p.source[0] == COLON
  {
  }

  lemma {:induction false} MemberSplit(rt: Runtime, p: Parser, lead: Text, rest: Text) returns (m: Member, s: Text)
    requires TopIs(p, StartObject) && (p.allowed == NAME_EXPECTED || p.allowed == OBJECT_START) && p.text == [] && !p.isString
    requires Ahead(rt, p, lead, rest) && !(rest[0] == RBRACE && p.allowed == OBJECT_START)
    ensures LegalMember(rt, m) && p.source == MemberText(m) + s && s != [] && IsEnd(s[0]) && |s| < |p.source|
    decreases |p.source|, 2
  {
    hide Completes, Step, ItemText, Decode, PiecesText, ReadNext, LegalItem;
    var q := p.(source := rest);
    OneStep(rt, q);
    NameInverse(rt, q);
    var xs, s1 := QuotedSplit(rt, q);
    ReadQuoted(rt, q, xs, s1);
    TokenWise(rt, q);
    var r := ReadNext(rt, q).0;
    var gap, s2 := BlankSplit(rt, r);
    OneStep(rt, r.(source := s2));
    ColonInverse(rt, r.(source := s2));
    var s3 := s2[1..];
    assert r.source == gap + [COLON] + s3;
    ReadColon(rt, r, gap, s3);
    var v := r.(source := s3, text := [], isString := false, allowed := VALUE_EXPECTED);
    SameTokens(rt, r, v);
    var w, behind := BlankSplit(rt, v);
    var it;
    it, s := ItemSplit(rt, v, w, behind);
    m := Member(lead, xs, gap, it);
    MemberOf(m, p.source, rest, s1, s3, s);
  }

  lemma MemberOf(m: Member, source: Text, rest: Text, s1: Text, s3: Text, s: Text)
    requires source == m.lead + rest && rest == Quoted(m.name) + s1 && s1 == m.gap + [COLON] + s3 && s3 == ItemText(m.item) + s
    ensures source == MemberText(m) + s
  {
    hide ItemText, Quoted;
  }

  lemma {:induction false} ObjectSplit(rt: Runtime, p: Parser) returns (ms: seq<Member>, s: Text)
    requires Completes(rt, p) && TopIs(p, StartObject) && p.allowed == AFTER_VALUE && p.source != [] && IsEnd(p.source[0])
    ensures (forall i :: 0 <= i < |ms| ==> LegalMember(rt, ms[i])) && p.source == ObjectRest(ms) + s && |s| < |p.source|
    decreases |p.source|, 0
  {
    hide Completes, Step, MemberText, LegalMember;
    OneStep(rt, p);
    WrongBracket(rt, p);
    if p.source[0] == RBRACE {
      ms, s := [], p.source[1..];
    } else {
      assert p.source == [COMMA] + p.source[1..];
      var q := CommaForward(rt, p, p.source[1..]);
      var w, behind := BlankSplit(rt, q);
      var m, s1 := MemberSplit(rt, q, w, behind);
      var r := MemberForward(rt, q, m, s1);
      var rest;
      rest, s := ObjectSplit(rt, r);
      ms := [m] + rest;
      assert ms[1..] == rest;
      assert p.source == [COMMA] + MemberText(m) + ObjectRest(rest) + s;
    }
  }

  // ---------- the accepted language ----------

  /** The tokenizer reads the text to the end of its root. */
  predicate Accepts(rt: Runtime, text: Text) {
    Completes(rt, NewParser(text))
  }

  /** The text is a legal array or object, behind blanks and in front of anything. */
  predicate Parses(rt: Runtime, text: Text, lead: Text, n: Node, tail: Text) {
    Blank(lead) && Legal(rt, n) && IsContainerNode(n) && text == lead + NodeText(n) + tail
  }

  lemma RootForward(rt: Runtime, text: Text, lead: Text, n: Node, tail: Text)
    requires Parses(rt, text, lead, n, tail)
    ensures Accepts(rt, text)
  {
    hide ReadNext, Completes, Step, Legal, ArrayBody, ObjectBody;
    var p := NewParser(text);
    assert p.source == lead + (NodeText(n) + tail);
    SkipBlank(rt, p, lead, NodeText(n) + tail);
    var q := p.(source := NodeText(n) + tail);
    SameTokens(rt, p, q);
    OpenStep(rt, q, n, tail);
    var r := q.(source := Body(n) + tail, states := [] + [Kind(n)], text := [], isString := false,
                allowed := if n.ArrayNode? then ARRAY_START else OBJECT_START);
    Stop(rt, q, r, Kind(n));
    TokenWise(rt, q);
    var e := BodyForward(rt, r, n, tail);
    ClosedCompletes(rt, e);
  }

  lemma ClosedCompletes(rt: Runtime, p: Parser)
    requires Closed(p)
    ensures Completes(rt, p)
  {
  }

  lemma StartInverse(rt: Runtime, p: Parser)
    requires p.source != [] && p.allowed == START && p.states == [] && !IsWhitespace(p.source[0])
    requires Step(rt, p).Continue? || !IsError(Step(rt, p).token)
    ensures p.source[0] == LBRACKET || p.source[0] == LBRACE
  {
  }

  lemma RootSplit(rt: Runtime, text: Text) returns (lead: Text, n: Node, tail: Text)
    requires Accepts(rt, text)
    ensures Parses(rt, text, lead, n, tail)
  {
    hide Completes, Step, Legal, ArrayBody, ObjectBody;
    var p := NewParser(text);
    var rest;
    lead, rest := BlankSplit(rt, p);
    var q := p.(source := rest);
    OneStep(rt, q);
    StartInverse(rt, q);
    OpenAny(rt, q);
    var kind := if rest[0] == LBRACKET then StartArray else StartObject;
    var r := q.(source := rest[1..], states := [] + [kind], text := [], isString := false,
                allowed := if kind == StartArray then ARRAY_START else OBJECT_START);
    n, tail := BodySplit(rt, r);
    assert rest == [rest[0]] + (Body(n) + tail);
    assert text == lead + NodeText(n) + tail;
  }

  /** The tokenizer accepts exactly the texts that are blanks, a legal array or object, and anything behind it. */
  lemma AcceptedLanguage(rt: Runtime, text: Text)
    ensures Accepts(rt, text) <==> exists lead, n, tail :: Parses(rt, text, lead, n, tail)
  {
    hide Accepts, Parses;
    if Accepts(rt, text) {
      var lead, n, tail := RootSplit(rt, text);
    }
    if lead, n, tail :| Parses(rt, text, lead, n, tail) {
      RootForward(rt, text, lead, n, tail);
    }
  }

  /** Reading an accepted text gives the value its root denotes. */
  lemma ReadAccepted(rt: Runtime, text: Text) returns (lead: Text, n: Node, tail: Text)
    requires Accepts(rt, text)
    ensures Parses(rt, text, lead, n, tail)
    ensures var c := Json(rt, OpenJson(rt, text)); Valid(c) && ReadValue(c).0 == Canon(Raw(rt, n))
  {
    hide Accepts, OpenJson, ReadValue, Canon, Raw, NodeText, Valid, Legal;
    lead, n, tail := RootSplit(rt, text);
    Bisimulation.ReadText(rt, lead, n, tail);
  }

  // ---------- in terms of calls of ReadNext ----------

  predicate NoErrors(ts: seq<ParseState>) {
    forall i :: 0 <= i < |ts| ==> !IsError(ts[i])
  }

  lemma {:induction false} FirstCall(rt: Runtime, p: Parser, k: nat)
    ensures var q := ReadNext(rt, p).0;
            After(rt, p, k + 1) == After(rt, q, k) && Tokens(rt, p, k + 1) == [ReadNext(rt, p).1] + Tokens(rt, q, k)
  {
    hide ReadNext;
    if k == 0 {
      assert After(rt, p, 0) == p && Tokens(rt, p, 0) == [];
    } else {
      FirstCall(rt, p, k - 1);
    }
  }

  lemma {:induction false} EnoughCalls(rt: Runtime, p: Parser) returns (k: nat)
    requires Ready(p) && Completes(rt, p)
    ensures NoErrors(Tokens(rt, p, k)) && Closed(After(rt, p, k))
    decreases |p.source|
  {
    hide ReadNext, Completes, Ready, Closed, Inv;
    if Closed(p) {
      k := 0;
    } else {
      TokenWise(rt, p);
      ReadNextProgress(rt, p);
      ReadyIsInv(p);
      ReadNextKeepsReady(rt, p);
      var j := EnoughCalls(rt, ReadNext(rt, p).0);
      FirstCall(rt, p, j);
      k := j + 1;
    }
  }

  lemma {:induction false} CallsComplete(rt: Runtime, p: Parser, k: nat)
    requires NoErrors(Tokens(rt, p, k)) && Closed(After(rt, p, k))
    ensures Completes(rt, p)
    decreases k
  {
    hide ReadNext, Completes, Closed;
    if Closed(p) {
      ClosedCompletes(rt, p);
    } else if k > 0 {
      FirstCall(rt, p, k - 1);
      var ts, us := Tokens(rt, p, k), Tokens(rt, ReadNext(rt, p).0, k - 1);
      assert ts[0] == ReadNext(rt, p).1;
      assert forall i :: 0 <= i < |us| ==> us[i] == ts[i + 1];
      CallsComplete(rt, ReadNext(rt, p).0, k - 1);
      TokenWise(rt, p);
    }
  }

  /** Acceptance means: after some number of calls of ReadNext, none of which fails, the root is closed. */
  lemma AcceptsByCalls(rt: Runtime, text: Text)
    ensures Accepts(rt, text)
       <==> exists k :: NoErrors(Tokens(rt, NewParser(text), k)) && Closed(After(rt, NewParser(text), k))
  {
    hide ReadNext, Completes, Closed, Tokens, After, NoErrors;
    var p := NewParser(text);
    if Accepts(rt, text) {
      NewIsReady(text);
      var k := EnoughCalls(rt, p);
    }
    if k :| NoErrors(Tokens(rt, p, k)) && Closed(After(rt, p, k)) {
      CallsComplete(rt, p, k);
    }
  }

  lemma NewIsReady(text: Text)
    ensures Ready(NewParser(text))
  {
  }
}
