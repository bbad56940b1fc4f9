/** The JSON pushdown automaton as a pure step function, its invariant, progress and permanent errors. */
module JsonTokens {
  import opened JSValues

  // C runtime calls made on a finished token; None where the call does not consume the whole text.
  datatype Runtime = Runtime(
    wcstoul: Text -> Option<Unit>,  // four units after \u that are not all hex digits
    wcstoi64: Text -> Option<I64>,
    wcstod: Text -> Option<Double>)

  datatype ParseState =
    | StartArray | StartObject | Name | Value | EndObject | EndArray
    | ErrorInvalidData | ErrorEndOfData

  predicate IsError(t: ParseState) {
    t == ErrorInvalidData || t == ErrorEndOfData
  }

  // The m_isAllowed flag word.
  datatype Allowed = Allowed(
    startContainer: bool, beginName: bool, nameDelim: bool, beginValue: bool, nonStringChar: bool,
    stringChar: bool, escapeChar: bool, escapeCharHex: bool, endContainer: bool, endComma: bool)

  const NONE := Allowed(false, false, false, false, false, false, false, false, false, false)
  const START := NONE.(startContainer := true)
  const VALUE_EXPECTED := NONE.(startContainer := true, beginValue := true)
  const NAME_EXPECTED := NONE.(beginName := true)
  const ARRAY_START := VALUE_EXPECTED.(endContainer := true)
  const OBJECT_START := NAME_EXPECTED.(endContainer := true)
  const COLON_EXPECTED := NONE.(nameDelim := true)
  const IN_STRING := NONE.(stringChar := true)
  const IN_ESCAPE := IN_STRING.(escapeChar := true)
  const IN_HEX := IN_STRING.(escapeCharHex := true)
  const IN_SCALAR := NONE.(nonStringChar := true, endComma := true, endContainer := true)
  const AFTER_VALUE := NONE.(endComma := true, endContainer := true)

  const HEX_CHAR_COUNT: nat := 4

  predicate IsWhitespace(c: Unit) {
    c == SPACE || c == TAB || c == CR || c == LF
  }

  // ---------- escapes ----------

  /** What the unit after a backslash stands for; `\u` is not among these. */
  function Unescape(c: Unit): Option<Unit> {
    if c == QUOTE || c == BACKSLASH || c == 0x2F then Some(c)
    else if c == 0x62 then Some(0x08)
    else if c == 0x66 then Some(0x0C)
    else if c == 0x6E then Some(LF)
    else if c == 0x72 then Some(CR)
    else if c == 0x74 then Some(TAB)
    else if c == 0x76 then Some(0x0B)
    else None
  }

  function HexDigit(c: Unit): Option<nat> {
    if 0x30 <= c <= 0x39 then Some(c - 0x30)
    else if 0x41 <= c <= 0x46 then Some(c - 0x41 + 10)
    else if 0x61 <= c <= 0x66 then Some(c - 0x61 + 10)
    else None
  }

  predicate IsHex4(t: Text) {
    |t| == HEX_CHAR_COUNT && forall i :: 0 <= i < |t| ==> HexDigit(t[i]).Some?
  }

  function HexValue(t: Text): Unit
    requires IsHex4(t)
  {
    ((HexDigit(t[0]).value * 16 + HexDigit(t[1]).value) * 16 + HexDigit(t[2]).value) * 16 + HexDigit(t[3]).value
  }

  function DecodeHex(rt: Runtime, t: Text): Option<Unit> {
    if IsHex4(t) then Some(HexValue(t)) else rt.wcstoul(t)
  }

  // ---------- the parser ----------

  // `source` is what lies between m_current and m_end.
  datatype Parser = Parser(
    source: Text, allowed: Allowed, text: Text, states: seq<ParseState>, hexStart: nat, isString: bool)

  function NewParser(source: Text): Parser {
    Parser(source, START, [], [], 0, false)
  }

  datatype Outcome = Continue(next: Parser) | Emit(next: Parser, token: ParseState)

  predicate TopIs(p: Parser, s: ParseState) {
    p.states != [] && p.states[|p.states| - 1] == s
  }

  function Inc(p: Parser): Parser {
    if p.source == [] then p else p.(source := p.source[1..])
  }

  function Pop(p: Parser): Parser {
    if p.states == [] then p else p.(states := p.states[..|p.states| - 1])
  }

  function Invalid(p: Parser): Outcome {
    Emit(p.(allowed := NONE), ErrorInvalidData)
  }

  function ExpectValue(p: Parser): (q: Parser)
    ensures q.source == p.source && q.states == p.states
  {
    p.(allowed := p.allowed.(startContainer := true, beginValue := true), isString := false, text := [])
  }

  function ResetContainer(p: Parser): (q: Parser)
    ensures q.source == p.source && q.states == p.states
  {
    if TopIs(p, StartArray) then ExpectValue(p.(allowed := NONE))
    else p.(allowed := NAME_EXPECTED, isString := false, text := [])
  }

  function StartContainer(p: Parser, state: ParseState): Outcome {
    if !p.allowed.startContainer then Invalid(p)
    else
      var q := ResetContainer(p.(states := p.states + [state]));
      Emit(Inc(q.(allowed := q.allowed.(endContainer := true))), state)
  }

  /** The common end of a value or container: pop it and allow what may follow. */
  function EndItem(p: Parser): (q: Parser)
    ensures q.source == p.source
  {
    var q := Pop(p);
    q.(allowed := if q.states == [] then NONE else AFTER_VALUE)
  }

  function EndContainer(p: Parser, oldState: ParseState, newState: ParseState): Outcome {
    if !p.allowed.endContainer then Invalid(p)
    else if TopIs(p, Value) then Emit(EndItem(p), Value)
    else if TopIs(p, oldState) then Emit(Inc(EndItem(p).(isString := false, text := [])), newState)
    else Invalid(p)
  }

  function Comma(p: Parser): Outcome {
    if !p.allowed.endComma then Invalid(p)
    else if TopIs(p, Value) then Emit(EndItem(p), Value)
    else Continue(Inc(ResetContainer(p)))
  }

  function BeginString(p: Parser): Outcome {
    if p.allowed.beginName || p.allowed.beginValue then
      Continue(Inc(p.(states := p.states + [if p.allowed.beginName then Name else Value],
                      allowed := IN_STRING, isString := true)))
    else Invalid(p)
  }

  function Colon(p: Parser): Outcome {
    if p.allowed.nameDelim then Continue(Inc(ExpectValue(p.(allowed := NONE)))) else Invalid(p)
  }

  function ScalarChar(p: Parser, ch: Unit): Outcome {
    if p.allowed.nonStringChar then Continue(Inc(p.(text := p.text + [ch])))
    else if p.allowed.beginValue then
      Continue(Inc(p.(allowed := IN_SCALAR, states := p.states + [Value], text := [ch])))
    else Invalid(p)
  }

  function EscapeChar(p: Parser, ch: Unit): Outcome {
    if ch == LOWER_U then
      Continue(Inc(p.(allowed := p.allowed.(escapeChar := false, escapeCharHex := true), hexStart := |p.text|)))
    else match Unescape(ch)
      case Some(u) => Continue(Inc(p.(text := p.text + [u], allowed := p.allowed.(escapeChar := false))))
      case None => Invalid(p)
  }

  function HexChar(rt: Runtime, p: Parser, ch: Unit): Outcome {
    var text := p.text + [ch];
    if |text| < p.hexStart + HEX_CHAR_COUNT then Continue(Inc(p.(text := text)))
    else if p.hexStart > |text| then Invalid(p.(text := text))
    else match DecodeHex(rt, text[p.hexStart..])
      case Some(u) =>
        Continue(Inc(p.(text := text[..p.hexStart] + [u], allowed := p.allowed.(escapeCharHex := false))))
      case None => Invalid(p.(text := text))
  }

  function StringEnd(p: Parser): Outcome {
    if TopIs(p, Name) then Emit(Inc(Pop(p).(allowed := COLON_EXPECTED)), Name)
    else Emit(Inc(EndItem(p)), Value)
  }

  function StringStep(rt: Runtime, p: Parser, ch: Unit): Outcome {
    if p.allowed.escapeChar then EscapeChar(p, ch)
    else if p.allowed.escapeCharHex then HexChar(rt, p, ch)
    else if ch == BACKSLASH then Continue(Inc(p.(allowed := p.allowed.(escapeChar := true))))
    else if ch == QUOTE then StringEnd(p)
    else Continue(Inc(p.(text := p.text + [ch])))
  }

  /** One turn of the ReadNext loop on a source that is not exhausted. */
  function Step(rt: Runtime, p: Parser): Outcome
    requires p.source != []
  {
    var ch := p.source[0];
    if p.allowed.stringChar then StringStep(rt, p, ch)
    else if IsWhitespace(ch) then Continue(Inc(p))
    else if ch == LBRACKET then StartContainer(p, StartArray)
    else if ch == RBRACKET then EndContainer(p, StartArray, EndArray)
    else if ch == LBRACE then StartContainer(p, StartObject)
    else if ch == RBRACE then EndContainer(p, StartObject, EndObject)
    else if ch == COMMA then Comma(p)
    else if ch == QUOTE then BeginString(p)
    else if ch == COLON then Colon(p)
    else ScalarChar(p, ch)
  }

  function ReadNext(rt: Runtime, p: Parser): (r: (Parser, ParseState))
    ensures |r.0.source| <= |p.source|
    decreases |p.source|
  {
    if p.source == [] then (p, ErrorEndOfData)
    else StepShrinks(rt, p); match Step(rt, p)
      case Continue(q) => ReadNext(rt, q)
      case Emit(q, t) => (q, t)
  }

  // ---------- what holds between steps ----------

  predicate IsContainer(s: ParseState) {
    s == StartArray || s == StartObject
  }

  predicate Containers(ss: seq<ParseState>) {
    forall i :: 0 <= i < |ss| ==> IsContainer(ss[i])
  }

  predicate StringMode(p: Parser) {
    p.isString && (p.allowed == IN_STRING || p.allowed == IN_ESCAPE
                   || (p.allowed == IN_HEX && p.hexStart <= |p.text| < p.hexStart + HEX_CHAR_COUNT))
  }

  predicate BetweenItems(p: Parser) {
    && Containers(p.states) && p.states != []
    && (p.allowed == AFTER_VALUE
        || (TopIs(p, StartObject) && p.allowed == COLON_EXPECTED)
        || (p.text == [] && !p.isString
            && (p.allowed == VALUE_EXPECTED
                || (TopIs(p, StartArray) && p.allowed == ARRAY_START)
                || (TopIs(p, StartObject) && (p.allowed == OBJECT_START || p.allowed == NAME_EXPECTED)))))
  }

  predicate InsideItem(p: Parser) {
    && |p.states| >= 2 && Containers(p.states[..|p.states| - 1])
    && ((TopIs(p, Name) && p.states[|p.states| - 2] == StartObject && StringMode(p))
        || (TopIs(p, Value) && (StringMode(p) || (p.allowed == IN_SCALAR && !p.isString))))
  }

  /** Ties the flags to the stack, the buffer and the hex position. */
  predicate Inv(p: Parser) {
    p.allowed == NONE || (p.allowed == START && p.states == []) || BetweenItems(p) || InsideItem(p)
  }

  /** Holds between calls of ReadNext: a scalar is left open only at the end of the data. */
  predicate Ready(p: Parser) {
    Inv(p) && (p.allowed.nonStringChar ==> p.source == [])
  }

  predicate StackBelow(p: Parser) {
    p.states != [] && Containers(p.states[..|p.states| - 1])
  }

  // What each flag says about the rest of the state.

  lemma StartFlag(p: Parser)
    requires Inv(p) && p.allowed.startContainer
    ensures Containers(p.states)
  {
  }

  lemma EndFlags(p: Parser)
    requires Inv(p) && (p.allowed.endContainer || p.allowed.endComma)
    ensures StackBelow(p) && (TopIs(p, Value) <==> p.allowed.nonStringChar)
    ensures !TopIs(p, Value) ==> Containers(p.states)
  {
  }

  lemma BeginFlags(p: Parser)
    requires Inv(p) && (p.allowed.beginName || p.allowed.beginValue)
    ensures Containers(p.states) && p.states != [] && (p.allowed.beginName ==> TopIs(p, StartObject))
    ensures !p.isString && p.text == []
  {
  }

  lemma DelimFlag(p: Parser)
    requires Inv(p) && p.allowed.nameDelim
    ensures Containers(p.states) && p.states != []
  {
  }

  lemma ScalarFlag(p: Parser)
    requires Inv(p) && p.allowed.nonStringChar
    ensures InsideItem(p) && p.allowed == IN_SCALAR
  {
    hide Containers;
  }

  lemma StringFlag(p: Parser)
    requires Inv(p) && p.allowed.stringChar
    ensures InsideItem(p) && StringMode(p)
  {
    hide Containers;
  }

  // The transitions, each from what its flag says.

  lemma StartShape(p: Parser, state: ParseState)
    requires Containers(p.states) && IsContainer(state)
    ensures Ready(StartContainer(p, state).next)
  {
    hide InsideItem;
    var q := p.(states := p.states + [state]);
    assert TopIs(q, state) && Containers(q.states);
  }

  lemma EndItemShape(p: Parser)
    requires StackBelow(p)
    ensures EndItem(p).allowed == NONE || BetweenItems(EndItem(p))
    ensures BetweenItems(EndItem(p)) ==> EndItem(p).allowed == AFTER_VALUE
  {
  }

  lemma EndShape(p: Parser, oldState: ParseState, newState: ParseState)
    requires p.allowed.endContainer ==> StackBelow(p)
    ensures Ready(EndContainer(p, oldState, newState).next)
  {
    hide Containers, InsideItem;
    if p.allowed.endContainer {
      EndItemShape(p);
    }
  }

  lemma CommaShape(p: Parser)
    requires p.allowed.endComma ==> StackBelow(p) && (TopIs(p, Value) || Containers(p.states))
    ensures Inv(Comma(p).next) && !Comma(p).next.allowed.nonStringChar
  {
    hide InsideItem;
    if p.allowed.endComma {
      EndItemShape(p);
    }
  }

  lemma BeginStringShape(p: Parser)
    requires p.allowed.beginName || p.allowed.beginValue ==> Containers(p.states) && p.states != []
    requires p.allowed.beginName ==> TopIs(p, StartObject)
    ensures Inv(BeginString(p).next) && !BeginString(p).next.allowed.nonStringChar
  {
    hide BetweenItems;
    if p.allowed.beginName || p.allowed.beginValue {
      var q := BeginString(p).next;
      assert q.states[..|q.states| - 1] == p.states;
    }
  }

  lemma ColonShape(p: Parser)
    requires p.allowed.nameDelim ==> Containers(p.states) && p.states != []
    ensures Inv(Colon(p).next) && !Colon(p).next.allowed.nonStringChar
  {
    hide InsideItem, Containers;
  }

  lemma ScalarShape(p: Parser, ch: Unit)
    requires p.allowed.nonStringChar ==> InsideItem(p) && p.allowed == IN_SCALAR
    requires p.allowed.beginValue ==> Containers(p.states) && p.states != [] && !p.isString
    ensures Inv(ScalarChar(p, ch).next)
    ensures ScalarChar(p, ch).Emit? ==> !ScalarChar(p, ch).next.allowed.nonStringChar
  {
    hide BetweenItems;
    if p.allowed.beginValue && !p.allowed.nonStringChar {
      var q := ScalarChar(p, ch).next;
      assert q.states[..|q.states| - 1] == p.states;
    }
  }

  lemma StringShape(rt: Runtime, p: Parser, ch: Unit)
    requires InsideItem(p) && StringMode(p)
    ensures Inv(StringStep(rt, p, ch).next) && !StringStep(rt, p, ch).next.allowed.nonStringChar
  {
    if p.allowed == IN_STRING && ch == QUOTE {
      EndItemShape(p);
      assert TopIs(p, Name) ==> TopIs(Pop(p), StartObject);
      hide Containers;
    } else {
      hide Containers, BetweenItems, DecodeHex, Unescape;
    }
  }

  lemma StepKeepsInv(rt: Runtime, p: Parser)
    requires Inv(p) && p.source != []
    ensures Inv(Step(rt, p).next)
    ensures Step(rt, p).Emit? ==> Ready(Step(rt, p).next)
  {
    hide Inv, StartContainer, EndContainer, Comma, BeginString, Colon, ScalarChar, StringStep, StringMode, Containers, InsideItem;
    var ch := p.source[0];
    if p.allowed.stringChar {
      StringFlag(p);
      StringShape(rt, p, ch);
    } else if IsWhitespace(ch) {
      IncKeepsInv(p);
    } else if ch == LBRACKET || ch == LBRACE {
      var state := if ch == LBRACKET then StartArray else StartObject;
      if p.allowed.startContainer {
        StartFlag(p);
        StartShape(p, state);
      } else {
        InvalidShape(p);
        StartRefused(p, state);
      }
    } else if ch == RBRACKET || ch == RBRACE {
      if p.allowed.endContainer {
        EndFlags(p);
      }
      EndShape(p, StartArray, EndArray);
      EndShape(p, StartObject, EndObject);
    } else if ch == COMMA {
      if p.allowed.endComma {
        EndFlags(p);
      }
      CommaShape(p);
    } else if ch == QUOTE {
      if p.allowed.beginName || p.allowed.beginValue {
        BeginFlags(p);
      }
      BeginStringShape(p);
    } else if ch == COLON {
      if p.allowed.nameDelim {
        DelimFlag(p);
      }
      ColonShape(p);
    } else {
      if p.allowed.nonStringChar {
        ScalarFlag(p);
      }
      if p.allowed.beginValue {
        BeginFlags(p);
      }
      ScalarShape(p, ch);
    }
  }

  lemma InvalidShape(p: Parser)
    ensures Ready(Invalid(p).next)
  {
  }

  lemma StartRefused(p: Parser, state: ParseState)
    requires !p.allowed.startContainer
    ensures StartContainer(p, state) == Invalid(p)
  {
  }

  lemma IncKeepsInv(p: Parser)
    requires Inv(p)
    ensures Inv(Inc(p))
  {
    hide Containers;
  }

  lemma {:induction false} ReadNextKeepsReady(rt: Runtime, p: Parser)
    requires Inv(p)
    ensures Ready(ReadNext(rt, p).0)
    decreases |p.source|
  {
    hide Step, Inv;
    if p.source != [] {
      StepKeepsInv(rt, p);
      match Step(rt, p)
      case Continue(q) =>
        StepShrinks(rt, p);
        ReadNextKeepsReady(rt, q);
      case Emit(_, _) =>
    }
  }

  lemma StringStepShrinks(rt: Runtime, p: Parser, ch: Unit)
    ensures StringStep(rt, p, ch).next.source == p.source || StringStep(rt, p, ch).next.source == Inc(p).source
    ensures StringStep(rt, p, ch).Continue? ==> StringStep(rt, p, ch).next.source == Inc(p).source
    ensures StringStep(rt, p, ch).Emit? && IsError(StringStep(rt, p, ch).token) ==> StringStep(rt, p, ch).next.allowed == NONE
    ensures StringStep(rt, p, ch).Emit? && !IsError(StringStep(rt, p, ch).token) ==> StringStep(rt, p, ch).next.source == Inc(p).source
  {
    hide DecodeHex, Unescape;
  }

  lemma StepShrinks(rt: Runtime, p: Parser)
    requires p.source != []
    ensures |Step(rt, p).next.source| <= |p.source|
    ensures Step(rt, p).Continue? ==> |Step(rt, p).next.source| < |p.source|
    ensures Step(rt, p).Emit? && IsError(Step(rt, p).token) ==> Step(rt, p).next.allowed == NONE
  {
    hide StringStep, ResetContainer, ExpectValue, EndItem;
    StringStepShrinks(rt, p, p.source[0]);
  }

  /** A call that reports no error consumes at least one unit. */
  lemma {:induction false} ReadNextProgress(rt: Runtime, p: Parser)
    requires Ready(p)
    ensures !IsError(ReadNext(rt, p).1) ==> |ReadNext(rt, p).0.source| < |p.source|
  {
    hide Step, Inv;
    if p.source != [] {
      StepConsumes(rt, p);
    }
  }

  lemma StepConsumes(rt: Runtime, p: Parser)
    requires Ready(p) && p.source != []
    ensures Step(rt, p).Continue? || !IsError(Step(rt, p).token) ==> |Step(rt, p).next.source| < |p.source|
  {
    hide Inv, StringStep, ResetContainer, ExpectValue, EndItem;
    StringStepShrinks(rt, p, p.source[0]);
    if p.allowed.endContainer || p.allowed.endComma {
      EndFlags(p);
    }
  }

  /** A call that meets a data error, or starts after the document or an error, leaves a parser that only fails. */
  predicate Dead(p: Parser) {
    p.allowed == NONE || p.source == []
  }

  lemma {:induction false} DeadStaysDead(rt: Runtime, p: Parser)
    requires Dead(p)
    ensures IsError(ReadNext(rt, p).1) && Dead(ReadNext(rt, p).0)
    ensures p.allowed == NONE ==> ReadNext(rt, p).0.allowed == NONE
    decreases |p.source|
  {
    if p.source != [] && IsWhitespace(p.source[0]) {
      DeadStaysDead(rt, Inc(p));
    }
  }

  lemma {:induction false} ErrorMeansDead(rt: Runtime, p: Parser)
    requires IsError(ReadNext(rt, p).1)
    ensures Dead(ReadNext(rt, p).0)
    decreases |p.source|
  {
    hide Step;
    if p.source != [] {
      StepShrinks(rt, p);
      match Step(rt, p)
      case Continue(q) => ErrorMeansDead(rt, q);
      case Emit(_, _) =>
    }
  }

  // ---------- runs ----------

  /** The parser after `n` calls of ReadNext, and the tokens they returned. */
  function After(rt: Runtime, p: Parser, n: nat): Parser {
    if n == 0 then p else ReadNext(rt, After(rt, p, n - 1)).0
  }

  function Tokens(rt: Runtime, p: Parser, n: nat): seq<ParseState> {
    if n == 0 then [] else Tokens(rt, p, n - 1) + [ReadNext(rt, After(rt, p, n - 1)).1]
  }

  lemma {:induction false} AfterIsReady(rt: Runtime, p: Parser, n: nat)
    requires Ready(p)
    ensures Ready(After(rt, p, n))
  {
    hide ReadNext, Inv;
    if n > 0 {
      AfterIsReady(rt, p, n - 1);
      ReadNextKeepsReady(rt, After(rt, p, n - 1));
    }
  }

  lemma {:induction false} TokenAt(rt: Runtime, p: Parser, n: nat, i: nat)
    requires i < n
    ensures |Tokens(rt, p, n)| == n && Tokens(rt, p, n)[i] == ReadNext(rt, After(rt, p, i)).1
  {
    hide ReadNext;
    if i < n - 1 {
      TokenAt(rt, p, n - 1, i);
    } else if n > 1 {
      TokenAt(rt, p, n - 1, 0);
    }
  }

  lemma {:induction false} DeadForever(rt: Runtime, p: Parser, i: nat, j: nat)
    requires i <= j && Dead(After(rt, p, i))
    ensures Dead(After(rt, p, j)) && IsError(ReadNext(rt, After(rt, p, j)).1)
    decreases j - i
  {
    hide ReadNext;
    if i < j {
      DeadForever(rt, p, i, j - 1);
      DeadStaysDead(rt, After(rt, p, j - 1));
    }
    DeadStaysDead(rt, After(rt, p, j));
  }

  /** On any text whatever, once one call has failed every later call fails. */
  lemma ErrorsArePermanent(rt: Runtime, text: Text, n: nat, i: nat, j: nat)
    requires i <= j < n && |Tokens(rt, NewParser(text), n)| == n
    requires IsError(Tokens(rt, NewParser(text), n)[i])
    ensures IsError(Tokens(rt, NewParser(text), n)[j])
  {
    hide ReadNext;
    var p := NewParser(text);
    TokenAt(rt, p, n, i);
    TokenAt(rt, p, n, j);
    ErrorMeansDead(rt, After(rt, p, i));
    if i < j {
      DeadForever(rt, p, i + 1, j);
    }
  }

  lemma {:induction false} GoodTokensConsume(rt: Runtime, p: Parser, n: nat)
    requires Ready(p) && n > 0
    requires forall i :: 0 <= i < n ==> !IsError(ReadNext(rt, After(rt, p, i)).1)
    ensures |After(rt, p, n).source| + n <= |p.source|
  {
    hide ReadNext;
    AfterIsReady(rt, p, n - 1);
    assert !IsError(ReadNext(rt, After(rt, p, n - 1)).1);
    ReadNextProgress(rt, After(rt, p, n - 1));
    if n > 1 {
      GoodTokensConsume(rt, p, n - 1);
    }
  }

  /** So a text of m units yields at most m tokens before an error: the call after them has failed. */
  lemma ErrorWithinLength(rt: Runtime, text: Text)
    ensures |Tokens(rt, NewParser(text), |text| + 1)| == |text| + 1
    ensures IsError(Tokens(rt, NewParser(text), |text| + 1)[|text|])
  {
    hide ReadNext;
    var p, n := NewParser(text), |text| + 1;
    TokenAt(rt, p, n, n - 1);
    if !IsError(Tokens(rt, p, n)[n - 1]) {
      forall i | 0 <= i < n ensures !IsError(ReadNext(rt, After(rt, p, i)).1) {
        TokenAt(rt, p, n, i);
        if IsError(Tokens(rt, p, n)[i]) {
          ErrorsArePermanent(rt, text, n, i, n - 1);
        }
      }
      GoodTokensConsume(rt, p, n);
    }
  }

  // ---------- reading a finished token ----------

  /** The order in which JsonJSValueReader::SetCurrentValue asks for the kind of a value. */
  function Classify(rt: Runtime, p: Parser): JSValue {
    if p.isString then String(p.text)
    else if p.text != [] && rt.wcstoi64(p.text).Some? then Int64(rt.wcstoi64(p.text).value)
    else if p.text != [] && rt.wcstod(p.text).Some? then Number(rt.wcstod(p.text).value)
    else if p.text == TRUE_TEXT then Boolean(true)
    else if p.text == FALSE_TEXT then Boolean(false)
    else Null
  }
}
