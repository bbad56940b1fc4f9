/** The characters the text formats are made of, given as string literals and digit positions, and that the tokenizer
    reads them so: nothing here is stated through the tokenizer's own tables. */
module Literals {
  import opened JSValues
  import opened JsonTokens
  import opened JsonSyntax

  /** The code units of a literal. */
  function Units(s: string): seq<int> {
    seq(|s|, i requires 0 <= i < |s| => s[i] as int)
  }

  lemma PunctuationLiterals()
    ensures [LBRACKET, RBRACKET, LBRACE, RBRACE, COMMA, COLON, QUOTE, BACKSLASH] == Units("[]{},:\"\\")
    ensures [TAB, LF, CR, SPACE] == Units("\t\n\r ") && [MINUS, ZERO, LOWER_U] == Units("-0u")
  {
  }

  lemma WordLiterals()
    ensures TRUE_TEXT == Units("true") && FALSE_TEXT == Units("false") && NULL_TEXT == Units("null")
  {
  }

  // ---------- blanks ----------

  const BLANKS: string := " \t\r\n"

  predicate Blanks(t: Text) {
    forall i :: 0 <= i < |t| ==> t[i] in Units(BLANKS)
  }

  lemma WhitespaceLiterals(c: Unit)
    ensures IsWhitespace(c) <==> c in Units(BLANKS)
  {
    assert Units(BLANKS) == [0x20, 0x09, 0x0D, 0x0A];
  }

  lemma BlankLiterals(t: Text)
    ensures Blank(t) <==> Blanks(t)
  {
    forall i | 0 <= i < |t| ensures IsWhitespace(t[i]) <==> t[i] in Units(BLANKS) {
      WhitespaceLiterals(t[i]);
    }
    hide Units, IsWhitespace;
  }

  const PUNCTUATION: string := "[]{},:\""

  /** Characters an unquoted scalar may hold. */
  lemma ScalarUnitLiterals(c: Unit)
    ensures IsScalarUnit(c) <==> c !in Units(BLANKS) && c !in Units(PUNCTUATION)
  {
    WhitespaceLiterals(c);
    assert Units(PUNCTUATION) == [0x5B, 0x5D, 0x7B, 0x7D, 0x2C, 0x3A, 0x22];
    hide IsWhitespace;
  }

  /** A text without its blanks. */
  function Compact(cs: Text): Text {
    if cs == [] then [] else (if cs[0] in Units(BLANKS) then [] else [cs[0]]) + Compact(cs[1..])
  }

  lemma {:induction false} CompactLiterals(cs: Text)
    ensures Squeezed(cs) == Compact(cs)
    ensures forall i :: 0 <= i < |cs| ==> cs[i] in Units(BLANKS) || cs[i] in Compact(cs)
  {
    hide Units, IsWhitespace;
    if cs != [] {
      WhitespaceLiterals(cs[0]);
      CompactLiterals(cs[1..]);
      forall i | 0 <= i < |cs| ensures cs[i] in Units(BLANKS) || cs[i] in Compact(cs) {
        assert i > 0 ==> cs[i] == cs[1..][i - 1];
      }
    }
  }

  // ---------- numerals ----------

  const DIGITS: string := "0123456789abcdef"
  const UPPER_DIGITS: string := "0123456789ABCDEF"

  /** The character is the digit of this value, in either case. */
  predicate IsDigit(c: int, x: int) {
    0 <= x < 16 && (c == DIGITS[x] as int || c == UPPER_DIGITS[x] as int)
  }

  /** Four characters, by position: 4096, 256, 16 and 1. */
  predicate IsHexNumeral(d: Text, u: Unit) {
    && |d| == 4
    && IsDigit(d[0], u / 0x1000) && IsDigit(d[1], u / 0x100 % 16) && IsDigit(d[2], u / 0x10 % 16) && IsDigit(d[3], u % 16)
  }

  lemma DigitValue(c: Unit, x: nat)
    requires x < 16
    ensures IsDigit(c, x) <==> HexDigit(c) == Some(x)
  {
    assert DIGITS[x] as int == if x < 10 then 0x30 + x else 0x61 + x - 10 by { LowerDigit(x); }
    assert UPPER_DIGITS[x] as int == if x < 10 then 0x30 + x else 0x41 + x - 10 by { UpperDigit(x); }
  }

  lemma LowerDigit(x: nat)
    requires x < 16
    ensures DIGITS[x] as int == if x < 10 then 0x30 + x else 0x61 + x - 10
  {
    assert Units(DIGITS)
        == [0x30, 0x31, 0x32, 0x33, 0x34, 0x35, 0x36, 0x37, 0x38, 0x39, 0x61, 0x62, 0x63, 0x64, 0x65, 0x66];
    assert DIGITS[x] as int == Units(DIGITS)[x];
  }

  lemma UpperDigit(x: nat)
    requires x < 16
    ensures UPPER_DIGITS[x] as int == if x < 10 then 0x30 + x else 0x41 + x - 10
  {
    assert Units(UPPER_DIGITS)
        == [0x30, 0x31, 0x32, 0x33, 0x34, 0x35, 0x36, 0x37, 0x38, 0x39, 0x41, 0x42, 0x43, 0x44, 0x45, 0x46];
    assert UPPER_DIGITS[x] as int == Units(UPPER_DIGITS)[x];
  }

  lemma FourDigits(u: Unit, a: nat, b: nat, c: nat, d: nat)
    requires a < 16 && b < 16 && c < 16 && d < 16
    ensures a == u / 0x1000 && b == u / 0x100 % 16 && c == u / 0x10 % 16 && d == u % 16 <==> u == ((a * 16 + b) * 16 + c) * 16 + d
  {
    LastDigit(u, (a * 16 + b) * 16 + c, d);
    LastDigit(u / 16, a * 16 + b, c);
    LastDigit(u / 16 / 16, a, b);
    assert u / 0x100 == u / 16 / 16 && u / 0x1000 == u / 16 / 16 / 16;
  }

  lemma LastDigit(u: nat, m: nat, d: nat)
    requires d < 16
    ensures u == m * 16 + d <==> m == u / 16 && d == u % 16
  {
  }

  lemma OneDigit(c: Unit, x: nat)
    requires HexDigit(c).Some? && x < 16
    ensures HexDigit(c).value < 16 && (IsDigit(c, x) <==> HexDigit(c).value == x)
  {
    DigitValue(c, x);
    hide IsDigit;
  }

  /** Every four-digit numeral of a unit decodes to that unit, whatever the runtime, and there are no others. */
  lemma HexNumeralDecodes(rt: Runtime, d: Text, u: Unit)
    ensures IsHex4(d) && HexValue(d) == u <==> IsHexNumeral(d, u)
    ensures IsHexNumeral(d, u) ==> DecodeHex(rt, d) == Some(u)
  {
    if IsHex4(d) {
      OneDigit(d[0], u / 0x1000);
      OneDigit(d[1], u / 0x100 % 16);
      OneDigit(d[2], u / 0x10 % 16);
      OneDigit(d[3], u % 16);
      hide HexDigit, IsDigit;
      FourDigits(u, HexDigit(d[0]).value, HexDigit(d[1]).value, HexDigit(d[2]).value, HexDigit(d[3]).value);
    } else if |d| == 4 {
      DigitValue(d[0], u / 0x1000);
      DigitValue(d[1], u / 0x100 % 16);
      DigitValue(d[2], u / 0x10 % 16);
      DigitValue(d[3], u % 16);
      hide HexDigit, IsDigit;
    }
  }

  lemma HexNumeralOf(d: Text)
    requires IsHex4(d)
    ensures IsHexNumeral(d, HexValue(d))
  {
    var rt := Runtime(_ => None, _ => None, _ => None);
    HexNumeralDecodes(rt, d, HexValue(d));
  }

  // ---------- strings ----------

  // Each escape letter over the character it stands for.
  const ESCAPE_LETTERS: string := "\"\\/bfnrtv"
  const ESCAPED: seq<int> := [0x22, 0x5C, 0x2F, 0x08, 0x0C, 0x0A, 0x0D, 0x09, 0x0B]

  /** The piece stands for the unit: the unit itself, an escape letter, or a numeral. */
  predicate Stands(x: Piece, u: Unit) {
    match x
    case Plain(c) => c == u && c != '"' as int && c != '\\' as int
    case Escape(c) => exists k :: 0 <= k < |ESCAPED| && c == ESCAPE_LETTERS[k] as int && u == ESCAPED[k]
    case Hex(d) => IsHexNumeral(d, u)
  }

  lemma EscapeLiterals(c: Unit, u: Unit)
    ensures Unescape(c) == Some(u) <==> Stands(Escape(c), u)
  {
    assert Units(ESCAPE_LETTERS) == [0x22, 0x5C, 0x2F, 0x62, 0x66, 0x6E, 0x72, 0x74, 0x76];
    assert |ESCAPED| == 9 && forall k :: 0 <= k < 9 ==> ESCAPE_LETTERS[k] as int == Units(ESCAPE_LETTERS)[k];
    if Unescape(c) == Some(u) {
      var k := if c == 0x22 then 0 else if c == 0x5C then 1 else if c == 0x2F then 2 else if c == 0x62 then 3
               else if c == 0x66 then 4 else if c == 0x6E then 5 else if c == 0x72 then 6 else if c == 0x74 then 7 else 8;
      assert c == ESCAPE_LETTERS[k] as int && u == ESCAPED[k];
    }
  }

  /** What the tokenizer takes for a piece of a string, and as which unit: exactly the pieces above, and numerals that
      only the runtime accepts. */
  lemma PieceLiterals(rt: Runtime, x: Piece, u: Unit)
    ensures LegalPiece(rt, x) && PieceUnit(rt, x) == u
       <==> Stands(x, u) || (x.Hex? && |x.digits| == 4 && !IsHex4(x.digits) && rt.wcstoul(x.digits) == Some(u))
  {
    match x
    case Plain(c) =>
    case Escape(c) => EscapeLiterals(c, u);
    case Hex(d) => HexNumeralDecodes(rt, d, u);
  }

  /** The pieces write the text, one for each unit. */
  predicate Writes(xs: seq<Piece>, s: Text) {
    |xs| == |s| && forall i :: 0 <= i < |xs| ==> Stands(xs[i], s[i])
  }

  lemma {:induction false} WritesDecodes(rt: Runtime, xs: seq<Piece>, s: Text)
    requires Writes(xs, s)
    ensures LegalPieces(rt, xs) && Decode(rt, xs) == s
  {
    hide Stands, LegalPiece, PieceUnit;
    if xs != [] {
      PieceLiterals(rt, xs[0], s[0]);
      WritesDecodes(rt, xs[1..], s[1..]);
      assert s == [s[0]] + s[1..];
      forall i | 0 <= i < |xs| ensures LegalPiece(rt, xs[i]) {
        assert i > 0 ==> xs[i] == xs[1..][i - 1];
      }
    }
  }

  // ---------- integers ----------

  function DigitIndex(c: Unit): int {
    if '0' as int <= c <= '9' as int then c - '0' as int
    else if 'a' as int <= c <= 'f' as int then c - 'a' as int + 10
    else -1
  }

  /** The value of a numeral, each digit worth `base` times the one behind it. */
  function NumeralValue(base: nat, t: Text): int {
    if t == [] then 0 else base * NumeralValue(base, t[..|t| - 1]) + DigitIndex(t[|t| - 1])
  }

  predicate AllDigits(base: nat, t: Text) {
    t != [] && forall i :: 0 <= i < |t| ==> 0 <= DigitIndex(t[i]) < base
  }

  lemma {:induction false} DigitsValue(n: nat)
    ensures AllDigits(10, Digits(n)) && NumeralValue(10, Digits(n)) == n && (n >= 10 ==> Digits(n)[0] != '0' as int)
    ensures n < 10 ==> |Digits(n)| == 1
    ensures n != 0 ==> Digits(n)[0] != '0' as int
  {
    var t := Digits(n);
    if n < 10 {
      assert t[..0] == [];
    } else {
      DigitsValue(n / 10);
      assert t[..|t| - 1] == Digits(n / 10) && t[|t| - 1] == ZERO + n % 10;
    }
  }

  /** std::to_string of an integer: its decimal numeral without leading zeros, behind a minus sign if it is negative. */
  lemma DecimalLiteral(i: int)
    ensures var t := Decimal(i);
            && t != [] && (t[0] == '-' as int <==> i < 0)
            && var digits := if i < 0 then t[1..] else t;
               AllDigits(10, digits) && NumeralValue(10, digits) == (if i < 0 then -i else i) && (|digits| > 1 ==> digits[0] != '0' as int)
  {
    DigitsValue(if i < 0 then -i else i);
    if i < 0 {
      assert Decimal(i)[1..] == Digits(-i);
    }
  }
}
