/** Every legal text for a tree reads back as that tree. */
module Spelling {
  import opened JSValues
  import opened JsonTokens
  import opened JsonSyntax
  import opened Literals
  import opened Cursors
  import opened ReadFroms
  import Bisimulation

  /** The text is one way to write the value: any blanks (inside numbers and literals too), any escapes, members in any
      order. All of it is given by literal characters. */
  ghost predicate Spells(rt: Runtime, n: Node, v: JSValue)
    decreases n
  {
    match n
    case StringNode(xs) => v.String? && Writes(xs, v.str)
    case ScalarNode(cs) => cs != [] && cs[0] !in Units(BLANKS) && SpellsScalar(rt, Compact(cs), v)
    case ArrayNode(pad, items) =>
      && Blanks(pad) && v.Array? && |v.items| == |items|
      && forall i :: 0 <= i < |items| ==>
           Blanks(items[i].before) && Spells(rt, items[i].value, v.items[i]) && Blanks(items[i].after)
    case ObjectNode(pad, ms) =>
      && Blanks(pad) && v.Object?
      && (forall i :: 0 <= i < |ms| ==>
            && Blanks(ms[i].lead) && Blanks(ms[i].gap) && Blanks(ms[i].item.before) && Blanks(ms[i].item.after)
            && SpellsMember(rt, ms[i], v.props))
      && (forall k :: 0 <= k < |v.props| ==> WritesName(ms, v.props[k].name))
  }

  /** The member writes one of the properties. */
  ghost predicate SpellsMember(rt: Runtime, m: Member, ps: seq<Property>)
    decreases m
  {
    exists k :: 0 <= k < |ps| && Writes(m.name, ps[k].name) && Spells(rt, m.item.value, ps[k].value)
  }

  predicate SpellsScalar(rt: Runtime, t: Text, v: JSValue) {
    || (v.Null? && t == Units("null"))
    || (v.Boolean? && t == if v.b then Units("true") else Units("false"))
    || (v.Int64? && t == Decimal(v.i))
    || (v.Number? && t != [] && (forall i :: 0 <= i < |t| ==> t[i] !in Units(PUNCTUATION))
        && rt.wcstoi64(t) == None && rt.wcstod(t) == Some(v.d))
  }

  /** Some member is written with this name. */
  predicate WritesName(ms: seq<Member>, name: Text) {
    exists i :: 0 <= i < |ms| && Writes(ms[i].name, name)
  }

  predicate HasMember(rt: Runtime, ms: seq<Member>, name: Text) {
    exists i :: 0 <= i < |ms| && Decode(rt, ms[i].name) == name
  }

  ghost predicate SpellsItems(rt: Runtime, items: seq<Item>, vs: seq<JSValue>) {
    && |items| == |vs|
    && forall i :: 0 <= i < |items| ==> Spells(rt, items[i].value, vs[i])
  }

  // ---------- spelled texts are legal ----------

  lemma {:induction false} SpelledIsLegal(rt: Runtime, n: Node, v: JSValue)
    requires Spells(rt, n, v)
    ensures Legal(rt, n)
    decreases n, 1
  {
    hide Blanks, Blank, Writes, SpellsScalar, Compact, Units, LegalPieces, LegalItem, LegalMember;
    match n
    case StringNode(xs) => WritesDecodes(rt, xs, v.str);
    case ScalarNode(cs) => ScalarIsLegal(rt, cs, v);
    case ArrayNode(pad, items) =>
      BlankLiterals(pad);
      forall i | 0 <= i < |items| ensures LegalItem(rt, items[i]) {
        ItemIsLegal(rt, n, v, i);
      }
      ItemsAreLegal(rt, pad, items);
    case ObjectNode(pad, ms) =>
      BlankLiterals(pad);
      forall i | 0 <= i < |ms| ensures LegalMember(rt, ms[i]) {
        MemberIsLegal(rt, n, v, i);
      }
      MembersAreLegal(rt, pad, ms);
  }

  lemma ItemsAreLegal(rt: Runtime, pad: Text, items: seq<Item>)
    requires Blank(pad) && forall i :: 0 <= i < |items| ==> LegalItem(rt, items[i])
    ensures Legal(rt, ArrayNode(pad, items))
  {
    hide Blank;
  }

  lemma MembersAreLegal(rt: Runtime, pad: Text, ms: seq<Member>)
    requires Blank(pad) && forall i :: 0 <= i < |ms| ==> LegalMember(rt, ms[i])
    ensures Legal(rt, ObjectNode(pad, ms))
  {
    hide Blank, LegalPieces;
    forall i | 0 <= i < |ms|
      ensures Blank(ms[i].lead) && LegalPieces(rt, ms[i].name) && Blank(ms[i].gap)
              && Blank(ms[i].item.before) && Legal(rt, ms[i].item.value) && Blank(ms[i].item.after)
    {
      assert LegalMember(rt, ms[i]);
    }
  }

  lemma {:induction false} ItemIsLegal(rt: Runtime, n: Node, v: JSValue, i: nat)
    requires n.ArrayNode? && Spells(rt, n, v) && i < |n.items|
    ensures LegalItem(rt, n.items[i])
    decreases n, 0
  {
    hide Blanks, Blank, Writes, SpellsScalar, Compact, Legal;
    BlankLiterals(n.items[i].before);
    BlankLiterals(n.items[i].after);
    SpelledIsLegal(rt, n.items[i].value, v.items[i]);
  }

  lemma {:induction false} MemberIsLegal(rt: Runtime, n: Node, v: JSValue, i: nat)
    requires n.ObjectNode? && Spells(rt, n, v) && i < |n.members|
    ensures LegalMember(rt, n.members[i])
    decreases n, 0
  {
    hide Blanks, Blank, Writes, SpellsScalar, Compact, Legal, LegalPieces, Decode;
    var m := n.members[i];
    BlankLiterals(m.lead);
    BlankLiterals(m.gap);
    BlankLiterals(m.item.before);
    BlankLiterals(m.item.after);
    var k := PropOf(rt, n, v, i);
    hide Spells;
    WritesDecodes(rt, m.name, v.props[k].name);
    SpelledIsLegal(rt, m.item.value, v.props[k].value);
  }

  /** The property a member writes. */
  lemma PropOf(rt: Runtime, n: Node, v: JSValue, i: nat) returns (k: nat)
    requires n.ObjectNode? && Spells(rt, n, v) && i < |n.members|
    ensures v.Object? && k < |v.props| && Writes(n.members[i].name, v.props[k].name)
    ensures Spells(rt, n.members[i].item.value, v.props[k].value)
  {
    hide Blanks, Writes, SpellsScalar, Compact;
    var m := n.members[i];
    assert SpellsMember(rt, m, v.props);
    k := PickProp(rt, m, v.props);
  }

  lemma PickProp(rt: Runtime, m: Member, ps: seq<Property>) returns (k: nat)
    requires SpellsMember(rt, m, ps)
    ensures k < |ps| && Writes(m.name, ps[k].name) && Spells(rt, m.item.value, ps[k].value)
  {
    hide Spells, Writes;
    k :| 0 <= k < |ps| && Writes(m.name, ps[k].name) && Spells(rt, m.item.value, ps[k].value);
  }

  /** A member that writes a property. */
  lemma MemberOf(rt: Runtime, n: Node, v: JSValue, k: nat) returns (i: nat)
    requires n.ObjectNode? && Spells(rt, n, v) && v.Object? && k < |v.props|
    ensures i < |n.members| && Writes(n.members[i].name, v.props[k].name)
  {
    hide Blanks, Writes, SpellsScalar, Compact;
    assert WritesName(n.members, v.props[k].name);
    i :| 0 <= i < |n.members| && Writes(n.members[i].name, v.props[k].name);
  }

  lemma ScalarIsLegal(rt: Runtime, cs: Text, v: JSValue)
    requires cs != [] && cs[0] !in Units(BLANKS) && SpellsScalar(rt, Compact(cs), v)
    ensures Legal(rt, ScalarNode(cs))
  {
    hide Units, Compact, SpellsScalar, IsScalarUnit, IsWhitespace;
    CompactLiterals(cs);
    ScalarUnits(rt, Compact(cs), v);
    forall i | 0 <= i < |cs| ensures IsScalarUnit(cs[i]) || IsWhitespace(cs[i]) {
      WhitespaceLiterals(cs[i]);
      ScalarUnitLiterals(cs[i]);
    }
    WhitespaceLiterals(cs[0]);
    ScalarUnitLiterals(cs[0]);
  }

  lemma ScalarUnits(rt: Runtime, t: Text, v: JSValue)
    requires SpellsScalar(rt, t, v)
    ensures forall c :: c in t ==> c !in Units(PUNCTUATION)
  {
    if v.Int64? {
      DecimalUnits(v.i);
      NotPunctuation(t);
    } else if !v.Number? {
      WordLiterals();
      NotPunctuation(t);
    }
    hide Units;
  }

  lemma NotPunctuation(t: Text)
    requires forall c :: c in t ==> c == 0x2D || 0x30 <= c <= 0x39 || 0x61 <= c <= 0x75
    ensures forall c :: c in t ==> c !in Units(PUNCTUATION)
  {
    assert Units(PUNCTUATION) == [0x5B, 0x5D, 0x7B, 0x7D, 0x2C, 0x3A, 0x22];
    hide Units;
  }

  lemma DecimalUnits(i: int)
    ensures forall c :: c in Decimal(i) ==> c == 0x2D || 0x30 <= c <= 0x39
  {
    DigitsValue(if i < 0 then -i else i);
  }

  // ---------- and denote the value ----------

  lemma {:induction false} Denotes(rt: Runtime, n: Node, v: JSValue)
    requires Spells(rt, n, v) && WellFormed(v) && ReadsWords(rt) && ReadsDecimals(rt)
    ensures Canon(Raw(rt, n)) == v
    decreases n, 1
  {
    match n
    case StringNode(xs) => WritesDecodes(rt, xs, v.str);
    case ScalarNode(cs) =>
      CompactLiterals(cs);
      ScalarDenotes(rt, Compact(cs), v);
    case ArrayNode(_, items) => ItemsDenote(rt, items, v.items);
    case ObjectNode(_, ms) =>
      var ps := RawMembers(rt, ms);
      CanonPropsWellFormed(ps, []);
      forall key ensures Lookup(CanonProps(ps, []), key) == Lookup(v.props, key) {
        MemberDenotes(rt, n, v, key);
      }
      SortedExtensional(CanonProps(ps, []), v.props);
  }

  lemma ScalarDenotes(rt: Runtime, t: Text, v: JSValue)
    requires SpellsScalar(rt, t, v) && ReadsWords(rt) && ReadsDecimals(rt)
    ensures ScalarValue(rt, t) == v && !v.IsContainer()
  {
    WordLiterals();
    if v.Int64? {
      assert rt.wcstoi64(Decimal(v.i)) == Some(v.i);
      DecimalNotEmpty(v.i);
    }
  }

  lemma DecimalNotEmpty(i: int)
    ensures Decimal(i) != []
  {
  }

  lemma {:induction false} ItemsDenote(rt: Runtime, items: seq<Item>, vs: seq<JSValue>)
    requires SpellsItems(rt, items, vs) && (forall i :: 0 <= i < |vs| ==> WellFormed(vs[i])) && ReadsWords(rt) && ReadsDecimals(rt)
    ensures CanonItems(RawItems(rt, items)) == vs
    decreases items, 0
  {
    hide ReadsWords, ReadsDecimals, Spells, WellFormed, Raw, Canon;
    if items != [] {
      Denotes(rt, items[0].value, vs[0]);
      ItemsDenote(rt, items[1..], vs[1..]);
      assert RawItems(rt, items)[1..] == RawItems(rt, items[1..]);
      assert [vs[0]] + vs[1..] == vs;
    }
  }

  /** The first member of a name, as the list of members holds it. */
  lemma {:induction false} FirstMember(rt: Runtime, ms: seq<Member>, key: Text) returns (i: nat)
    ensures match Lookup(RawMembers(rt, ms), key)
            case None => !HasMember(rt, ms, key)
            case Some(x) => i < |ms| && Decode(rt, ms[i].name) == key && x == Raw(rt, ms[i].item.value)
  {
    hide Raw, Decode;
    i := 0;
    if ms != [] && Decode(rt, ms[0].name) != key {
      var k := FirstMember(rt, ms[1..], key);
      i := k + 1;
      assert RawMembers(rt, ms)[1..] == RawMembers(rt, ms[1..]);
      if HasMember(rt, ms, key) {
        var m :| 0 <= m < |ms| && Decode(rt, ms[m].name) == key;
        assert ms[1..][m - 1] == ms[m];
      }
    }
  }

  lemma {:induction false} LookupAt(ps: seq<Property>, k: nat)
    requires Sorted(ps) && k < |ps|
    ensures Lookup(ps, ps[k].name) == Some(ps[k].value)
  {
    hide Less;
    if k > 0 {
      assert Less(ps[0].name, ps[k].name);
      LessIrreflexive(ps[k].name);
      SortedTail(ps);
      LookupAt(ps[1..], k - 1);
    }
  }

  lemma {:induction false} MemberDenotes(rt: Runtime, n: Node, v: JSValue, key: Text)
    requires n.ObjectNode? && Spells(rt, n, v) && WellFormed(v) && ReadsWords(rt) && ReadsDecimals(rt)
    ensures Lookup(CanonProps(RawMembers(rt, n.members), []), key) == Lookup(v.props, key)
    decreases n, 0
  {
    hide Raw, Canon, Decode, Writes, ReadsWords, ReadsDecimals, CanonProps, RawMembers;
    var ms := n.members;
    CanonLookup(RawMembers(rt, ms), [], key);
    var i := FirstMember(rt, ms, key);
    if Lookup(RawMembers(rt, ms), key).Some? {
      var k := PropOf(rt, n, v, i);
      WritesDecodes(rt, ms[i].name, v.props[k].name);
      PropWellFormed(v, k);
      hide Spells, WellFormed;
      Denotes(rt, ms[i].item.value, v.props[k].value);
      LookupAt(v.props, k);
    } else {
      LookupIsHasName(v.props, key);
      if HasName(v.props, key) {
        var k :| 0 <= k < |v.props| && v.props[k].name == key;
        var j := MemberOf(rt, n, v, k);
        WritesDecodes(rt, ms[j].name, key);
      }
    }
  }

  lemma PropWellFormed(v: JSValue, k: nat)
    requires WellFormed(v) && v.Object? && k < |v.props|
    ensures WellFormed(v.props[k].value) && Sorted(v.props)
  {
  }

  /** For every tree with a container root and every legal text for it, whatever surrounds that text,
      reading the text gives exactly the tree. */
  lemma ReadSpelled(rt: Runtime, lead: Text, n: Node, tail: Text, v: JSValue)
    requires Blanks(lead) && v.IsContainer() && WellFormed(v) && Spells(rt, n, v)
    requires ReadsWords(rt) && ReadsDecimals(rt)
    ensures var c := Json(rt, OpenJson(rt, lead + NodeText(n) + tail));
            Valid(c) && ReadValue(c).0 == v
  {
    Denotes(rt, n, v);
    SpelledIsLegal(rt, n, v);
    BlankLiterals(lead);
    assert IsContainerNode(n);
    hide Legal, Blanks, Blank, NodeText, OpenJson, Spells, Raw, Canon, ReadValue, Valid, WellFormed;
    Bisimulation.ReadText(rt, lead, n, tail);
  }

  /** The text ["\uXXXX"], with any four-digit numeral of a unit in either case, reads as the text of that one unit. */
  lemma ReadHexEscape(rt: Runtime, d: Text, u: Unit)
    requires IsHexNumeral(d, u)
    ensures var c := Json(rt, OpenJson(rt, [LBRACKET, QUOTE, BACKSLASH, LOWER_U] + d + [QUOTE, RBRACKET]));
            Valid(c) && ReadValue(c).0 == Array([String([u])])
  {
    hide IsHexNumeral, OpenJson, ReadValue, Valid;
    var n := StringNode([Hex(d)]);
    var root := ArrayNode([], [Item([], n, [])]);
    assert Writes([Hex(d)], [u]);
    WritesDecodes(rt, [Hex(d)], [u]);
    assert NodeText(n) == [QUOTE, BACKSLASH, LOWER_U] + d + [QUOTE] by {
      assert [Hex(d)][1..] == [];
      assert PiecesText([Hex(d)]) == [BACKSLASH, LOWER_U] + d + [];
    }
    HexEscapeText(d, n, root);
    assert Raw(rt, root) == Array([String([u])]) by {
      assert root.items[1..] == [] && RawItems(rt, []) == [];
      assert Raw(rt, n) == String([u]);
      assert RawItems(rt, root.items) == [Raw(rt, n)] + [];
    }
    Bisimulation.ReadText(rt, [], root, []);
    assert [] + NodeText(root) + [] == NodeText(root);
    assert Canon(Array([String([u])])) == Array([String([u])]) by {
      CanonOfWellFormed(Array([String([u])]));
    }
  }

  lemma HexEscapeText(d: Text, n: Node, root: Node)
    requires NodeText(n) == [QUOTE, BACKSLASH, LOWER_U] + d + [QUOTE] && root == ArrayNode([], [Item([], n, [])])
    ensures NodeText(root) == [LBRACKET, QUOTE, BACKSLASH, LOWER_U] + d + [QUOTE, RBRACKET]
  {
    var items := root.items;
    assert items[1..] == [] && ArrayRest([]) == [RBRACKET];
    assert ItemText(items[0]) == [] + NodeText(n) + [] == NodeText(n);
    assert ArrayBody([], items) == NodeText(n) + [RBRACKET];
    hide NodeText;
  }
}
