/** JsonReader as it is written: fields updated in place, one method per handler, and the ReadNext loop. */
module JsonReaders {
  import opened JSValues
  import opened JsonTokens

  class JsonReader {
    const rt: Runtime
    const buffer: Text
    var current: nat
    var allowed: Allowed
    var textBuffer: Text
    var states: seq<ParseState>
    var hexStart: nat
    var isStringContent: bool

    /** The state as the pure parser sees it. */
    function State(): Parser
      reads this
      requires current <= |buffer|
    {
      Parser(buffer[current..], allowed, textBuffer, states, hexStart, isStringContent)
    }

    ghost predicate Valid()
      reads this
    {
      current <= |buffer| && Inv(State())
    }

    constructor (rt: Runtime, buffer: Text)
      ensures Valid() && this.rt == rt && this.buffer == buffer && State() == NewParser(buffer)
      ensures Ready(State())
    {
      this.rt := rt;
      this.buffer := buffer;
      current, allowed, textBuffer, states, hexStart, isStringContent := 0, START, [], [], 0, false;
      new;
      assert buffer[0..] == buffer;
    }

    // ---------- JsonSource ----------

    predicate IsEndOfData()
      reads this
    {
      current == |buffer|
    }

    function PeekChar(): Unit
      reads this
      requires current < |buffer|
    {
      buffer[current]
    }

    method Inc()
      requires current < |buffer|
      modifies this`current
      ensures current == old(current) + 1
    {
      current := current + 1;
    }

    // ---------- the handlers ----------

    method OnValueExpected()
      requires current <= |buffer|
      modifies this`allowed, this`isStringContent, this`textBuffer
      ensures State() == ExpectValue(old(State()))
    {
      allowed := allowed.(startContainer := true);
      allowed := allowed.(beginValue := true);
      isStringContent := false;
      textBuffer := [];
    }

    method ResetContainerState()
      requires current <= |buffer| && states != []
      modifies this`allowed, this`isStringContent, this`textBuffer
      ensures State() == ResetContainer(old(State()))
    {
      allowed := NONE;
      if states[|states| - 1] == StartArray {
        OnValueExpected();
      } else {
        allowed := allowed.(beginName := true);
        isStringContent := false;
        textBuffer := [];
      }
    }

    method HandleInvalidData() returns (t: ParseState)
      requires current <= |buffer|
      modifies this`allowed
      ensures Emit(State(), t) == Invalid(old(State()))
    {
      allowed := NONE;
      t := ErrorInvalidData;
    }

    method HandleStartContainer(state: ParseState) returns (t: ParseState)
      requires current < |buffer|
      modifies this
      ensures current <= |buffer| && Emit(State(), t) == StartContainer(old(State()), state)
    {
      if !allowed.startContainer {
        t := HandleInvalidData();
        return;
      }
      states := states + [state];
      ResetContainerState();
      allowed := allowed.(endContainer := true);
      Inc();
      t := state;
    }

    /** Pops a value or container; m_states.top() is read, so the stack must not be empty. */
    method HandleEndContainerOrValue(state: ParseState) returns (ended: bool)
      requires current <= |buffer| && states != []
      modifies this`states, this`allowed
      ensures ended <==> TopIs(old(State()), state)
      ensures State() == if ended then EndItem(old(State())) else old(State())
    {
      if states[|states| - 1] == state {
        states := states[..|states| - 1];
        allowed := NONE;
        if |states| > 0 {
          allowed := allowed.(endComma := true);
          allowed := allowed.(endContainer := true);
        }
        return true;
      }
      return false;
    }

    method HandleEndContainer(oldState: ParseState, newState: ParseState) returns (t: ParseState)
      requires current < |buffer| && (allowed.endContainer ==> states != [])
      modifies this
      ensures current <= |buffer| && Emit(State(), t) == EndContainer(old(State()), oldState, newState)
    {
      if !allowed.endContainer {
        t := HandleInvalidData();
        return;
      }
      var ended := HandleEndContainerOrValue(Value);
      if ended {
        t := Value;
        return;
      }
      ended := HandleEndContainerOrValue(oldState);
      if ended {
        isStringContent := false;
        textBuffer := [];
        Inc();
        t := newState;
        return;
      }
      t := HandleInvalidData();
    }

    method HandleBeginString() returns (ok: bool)
      requires current < |buffer|
      modifies this`states, this`allowed, this`isStringContent
      ensures ok <==> BeginString(old(State())).Continue?
      ensures ok ==> JsonTokens.Inc(State()) == BeginString(old(State())).next
      ensures !ok ==> State() == old(State()) && BeginString(State()) == Invalid(State())
    {
      if allowed.beginName || allowed.beginValue {
        states := states + [if allowed.beginName then Name else Value];
        allowed := NONE;
        allowed := allowed.(stringChar := true);
        isStringContent := true;
        return true;
      }
      return false;
    }

    method HandleNonStringChar(ch: Unit) returns (ok: bool)
      requires current < |buffer|
      modifies this`textBuffer, this`allowed, this`states
      ensures ok <==> ScalarChar(old(State()), ch).Continue?
      ensures ok ==> JsonTokens.Inc(State()) == ScalarChar(old(State()), ch).next
      ensures !ok ==> State() == old(State()) && ScalarChar(State(), ch) == Invalid(State())
    {
      if allowed.nonStringChar {
        textBuffer := textBuffer + [ch];
        return true;
      }
      if allowed.beginValue {
        allowed := NONE;
        allowed := allowed.(nonStringChar := true);
        allowed := allowed.(endComma := true);
        allowed := allowed.(endContainer := true);
        states := states + [Value];
        textBuffer := [];
        textBuffer := textBuffer + [ch];
        return true;
      }
      return false;
    }

    method HandleEscapeChar(ch: Unit) returns (ok: bool)
      requires current < |buffer|
      modifies this`textBuffer, this`allowed, this`hexStart
      ensures ok <==> EscapeChar(old(State()), ch).Continue?
      ensures ok ==> JsonTokens.Inc(State()) == EscapeChar(old(State()), ch).next
      ensures !ok ==> State() == old(State()) && EscapeChar(State(), ch) == Invalid(State())
    {
      var unit := ch;
      if ch == LOWER_U {
        allowed := allowed.(escapeChar := false);
        allowed := allowed.(escapeCharHex := true);
        hexStart := |textBuffer|;
        return true;
      }
      match Unescape(ch) {
        case Some(u) => unit := u;
        case None => return false;
      }
      textBuffer := textBuffer + [unit];
      allowed := allowed.(escapeChar := false);
      return true;
    }

    method HandleEscapeCharHex(ch: Unit) returns (ok: bool)
      requires current < |buffer| && hexStart <= |textBuffer|
      modifies this`textBuffer, this`allowed
      ensures ok <==> HexChar(rt, old(State()), ch).Continue?
      ensures ok ==> JsonTokens.Inc(State()) == HexChar(rt, old(State()), ch).next
      ensures !ok ==> Invalid(State()) == HexChar(rt, old(State()), ch)
    {
      textBuffer := textBuffer + [ch];
      if |textBuffer| < hexStart + HEX_CHAR_COUNT {
        return true;
      }
      match DecodeHex(rt, textBuffer[hexStart..]) {
        case None => return false;
        case Some(u) =>
          textBuffer := textBuffer[..hexStart];
          textBuffer := textBuffer + [u];
      }
      allowed := allowed.(escapeCharHex := false);
      return true;
    }

    method HandleEndName() returns (ended: bool)
      requires current < |buffer| && states != []
      modifies this`states, this`allowed
      ensures ended <==> TopIs(old(State()), Name)
      ensures State() == if ended then Pop(old(State())).(allowed := COLON_EXPECTED) else old(State())
    {
      if states[|states| - 1] == Name {
        states := states[..|states| - 1];
        allowed := NONE;
        allowed := allowed.(nameDelim := true);
        return true;
      }
      return false;
    }

    // ---------- the loop ----------

    /** One turn inside a string. The check the source expects never to fail is the assertion. */
    method StringTurn(ch: Unit) returns (again: bool, t: ParseState)
      requires Valid() && current < |buffer| && ch == PeekChar() && allowed.stringChar
      modifies this
      ensures current <= |buffer|
      ensures again ==> current == old(current) && Continue(JsonTokens.Inc(State())) == StringStep(rt, old(State()), ch)
      ensures !again ==> Emit(State(), t) == StringStep(rt, old(State()), ch)
    {
      StringFlag(State());
      hide Inv;
      again, t := true, Value;
      if allowed.escapeChar {
        again := HandleEscapeChar(ch);
        if !again {
          t := HandleInvalidData();
        }
      } else if allowed.escapeCharHex {
        again := HandleEscapeCharHex(ch);
        if !again {
          t := HandleInvalidData();
        }
      } else if ch == BACKSLASH {
        allowed := allowed.(escapeChar := true);
      } else if ch == QUOTE {
        var ended := HandleEndName();
        if ended {
          Inc();
          return false, Name;
        }
        ended := HandleEndContainerOrValue(Value);
        assert ended;
        Inc();
        return false, Value;
      } else {
        textBuffer := textBuffer + [ch];
      }
    }

    /** One turn outside strings, on a unit that is not blank. */
    method PlainTurn(ch: Unit) returns (again: bool, t: ParseState)
      requires Valid() && current < |buffer| && ch == PeekChar() && !allowed.stringChar && !IsWhitespace(ch)
      modifies this
      ensures current <= |buffer|
      ensures again ==> current == old(current) && Continue(JsonTokens.Inc(State())) == Step(rt, old(State()))
      ensures !again ==> Emit(State(), t) == Step(rt, old(State()))
    {
      if allowed.endContainer || allowed.endComma {
        EndFlags(State());
      }
      hide Inv, StringStep;
      again, t := false, Value;
      if ch == LBRACKET {
        t := HandleStartContainer(StartArray);
      } else if ch == RBRACKET {
        t := HandleEndContainer(StartArray, EndArray);
      } else if ch == LBRACE {
        t := HandleStartContainer(StartObject);
      } else if ch == RBRACE {
        t := HandleEndContainer(StartObject, EndObject);
      } else if ch == COMMA {
        if allowed.endComma {
          var ended := HandleEndContainerOrValue(Value);
          if ended {
            return false, Value;
          }
          ResetContainerState();
          return true, Value;
        }
        t := HandleInvalidData();
      } else if ch == QUOTE {
        again := HandleBeginString();
        if !again {
          t := HandleInvalidData();
        }
      } else if ch == COLON {
        if allowed.nameDelim {
          allowed := NONE;
          OnValueExpected();
          return true, Value;
        }
        t := HandleInvalidData();
      } else {
        again := HandleNonStringChar(ch);
        if !again {
          t := HandleInvalidData();
        }
      }
    }

    /** Reads to the next token or error; the position stays within the data and moves on with every token. */
    method ReadNext() returns (t: ParseState)
      requires Valid()
      modifies this
      ensures Valid() && Ready(State())
      ensures (State(), t) == JsonTokens.ReadNext(rt, old(State()))
      ensures old(current) <= current <= |buffer|
      ensures old(Ready(State())) && !IsError(t) ==> old(current) < current
    {
      hide Inv, Step;
      ReadNextKeepsReady(rt, State());
      if Ready(State()) {
        ReadNextProgress(rt, State());
      }
      while true
        invariant current <= |buffer| && Inv(State())
        invariant old(current) <= current
        invariant JsonTokens.ReadNext(rt, State()) == JsonTokens.ReadNext(rt, old(State()))
        decreases |buffer| - current
      {
        if IsEndOfData() {
          return ErrorEndOfData;
        }
        var ch := PeekChar();
        assert State().source[0] == ch && JsonTokens.Inc(State()).source == buffer[current + 1..];
        StepKeepsInv(rt, State());
        ghost var before := State();
        if allowed.stringChar {
          StringIsStep(rt, State());
          var again;
          again, t := StringTurn(ch);
          if !again {
            return;
          }
        } else if IsWhitespace(ch) {
          BlankIsStep(rt, State());
        } else {
          var again;
          again, t := PlainTurn(ch);
          if !again {
            return;
          }
        }
        Inc();
        assert Continue(State()) == Step(rt, before);
      }
    }

    // ---------- asking for the current value ----------

    method GetString() returns (ok: bool, value: Text)
      ensures ok == isStringContent && value == if ok then textBuffer else []
    {
      if isStringContent {
        return true, textBuffer;
      }
      return false, [];
    }

    method GetBool() returns (ok: bool, value: bool)
      ensures ok <==> !isStringContent && (textBuffer == TRUE_TEXT || textBuffer == FALSE_TEXT)
      ensures value <==> !isStringContent && textBuffer == TRUE_TEXT
    {
      if !isStringContent {
        if textBuffer == TRUE_TEXT {
          return true, true;
        }
        if textBuffer == FALSE_TEXT {
          return true, false;
        }
      }
      return false, false;
    }

    method GetInt64() returns (ok: bool, value: I64)
      ensures ok <==> !isStringContent && textBuffer != [] && rt.wcstoi64(textBuffer).Some?
      ensures value == if ok then rt.wcstoi64(textBuffer).value else 0
    {
      if !isStringContent && |textBuffer| != 0 {
        match rt.wcstoi64(textBuffer) {
          case Some(i) => return true, i;
          case None =>
        }
      }
      return false, 0;
    }

    method GetDouble() returns (ok: bool, value: Double)
      ensures ok <==> !isStringContent && textBuffer != [] && rt.wcstod(textBuffer).Some?
      ensures value == if ok then rt.wcstod(textBuffer).value else Finite(0.0)
    {
      if !isStringContent && |textBuffer| != 0 {
        match rt.wcstod(textBuffer) {
          case Some(d) => return true, d;
          case None =>
        }
      }
      return false, Finite(0.0);
    }
  }

  lemma StringIsStep(rt: Runtime, p: Parser)
    requires p.source != [] && p.allowed.stringChar
    ensures Step(rt, p) == StringStep(rt, p, p.source[0])
  {
    hide StringStep;
  }

  lemma BlankIsStep(rt: Runtime, p: Parser)
    requires p.source != [] && !p.allowed.stringChar && IsWhitespace(p.source[0])
    ensures Step(rt, p) == Continue(JsonTokens.Inc(p))
  {
  }
}
