/**
  The compact layout is the shortest text of its value, and the only one of
  that length but for the case of hexadecimal digits.
 */
module Shortest {
  import opened Bytes
  import opened Utf
  import opened Literals
  import opened Values
  import opened Grammar
  import opened RoundTrip
  import opened Syntax
  import SyntaxLaws
  import opened Rfc8259
  import opened RfcValues
  import opened PrintedConforms

  /** A spelling is no shorter than `c`; and if it is as short, and its escapes are in lower case, it is `c`. */
  ghost predicate NoShorter(s: seq<byte>, lower: bool, c: seq<byte>) {
    |s| >= |c| && (lower && |s| == |c| ==> s == c)
  }

  lemma Joined(s: seq<byte>, x: bool, c: seq<byte>, s': seq<byte>, y: bool, c': seq<byte>)
    requires NoShorter(s, x, c) && NoShorter(s', y, c')
    ensures NoShorter(s + s', x && y, c + c')
  {
  }

  // ----- Strings

  predicate LowerMark(m: Mark) {
    m.Code? ==> forall i :: 0 <= i < |m.digits| ==> !(UPPER_A <= m.digits[i] <= UPPER_F)
  }

  predicate LowerMarks(ms: seq<Mark>) {
    forall i :: 0 <= i < |ms| ==> LowerMark(ms[i])
  }

  lemma {:induction false} EscapedOfSum(s: seq<byte>, t: seq<byte>)
    ensures Escaped(s + t) == Escaped(s) + Escaped(t)
  {
    if s == [] {
      assert s + t == t;
    } else {
      assert (s + t)[1..] == s[1..] + t;
      EscapedOfSum(s[1..], t);
      assert EscapeByte(s[0]) + (Escaped(s[1..]) + Escaped(t)) == (EscapeByte(s[0]) + Escaped(s[1..])) + Escaped(t);
    }
  }

  lemma EscapedOne(b: byte)
    ensures Escaped([b]) == EscapeByte(b)
  {
    assert [b][1..] == [] && EscapeByte(b) + [] == EscapeByte(b);
  }

  /** A character above the ASCII range is printed as it is. */
  lemma EscapedCharacter(u: nat)
    requires 0x80 <= u < 0x110000 && !(0xD800 <= u < 0xE000)
    ensures Escaped(Encode(u)) == Encode(u) && |Encode(u)| <= 4
  {
    var s := Encode(u);
    assert High(s);
    assert s[..|s|] == s && s[|s|..] == [];
    EscapedHigh(s, |s|);
  }

  /** A control character without a name of its own, in four lower-case digits. */
  lemma ControlDigits(digits: seq<byte>)
    requires |digits| == 4 && HasHex4(digits, 0) && LowerMark(Code(digits)) && Unit(digits, 0) < 32
    ensures var u := Unit(digits, 0); digits == [ZERO, ZERO, ZERO + u / 16, HexChar(u % 16)]
  {
    assert digits[0] == ZERO && digits[1] == ZERO && digits[2] in {ZERO, ONE};
    assert HexDigit(digits[2]) * 16 + HexDigit(digits[3]) == Unit(digits, 0);
    LowerDigit(digits[3]);
    assert digits == [digits[0], digits[1], digits[2], digits[3]];
  }

  lemma LowerDigit(c: byte)
    requires IsHex(c) && !(UPPER_A <= c <= UPPER_F)
    ensures HexChar(HexDigit(c)) == c
  {
  }

  /** What a mark that is no surrogate contributes. */
  lemma MarkNoShorter(m: Mark)
    requires StrictMark(m) && LooseMark(m) && (m.Code? ==> !IsHigh(UnitOf(m)) && !IsLow(UnitOf(m)))
    ensures var s := if m.Code? then (if UnitOf(m) == 0 then [] else Encode(UnitOf(m))) else [TokenOf(m).b];
            NoShorter(SpellMark(m), LowerMark(m), Escaped(s))
  {
    match m
    case Raw(b) => EscapedOne(b);
    case Short(b) => EscapedOne(TokenOf(m).b);
    case Code(digits) =>
      var u := UnitOf(m);
      if 0 < u < 0x80 {
        EscapedOne(u);
        assert Encode(u) == [u];
        if u < 32 && LowerMark(m) {
          ControlDigits(digits);
        }
      } else if u >= 0x80 {
        EscapedCharacter(u);
      }
  }

  lemma MeaningFront(ms: seq<Mark>)
    requires LooseMarks(ms) && ms != []
    ensures var m := ms[0];
            && (!m.Code? ==> StringOf(ms) == [TokenOf(m).b] + StringOf(ms[1..]))
            && (m.Code? && (UnitOf(m) == 0 || IsLow(UnitOf(m))) ==> StringOf(ms) == StringOf(ms[1..]))
            && (m.Code? && UnitOf(m) != 0 && !IsLow(UnitOf(m)) && !IsHigh(UnitOf(m)) ==>
                  StringOf(ms) == Encode(UnitOf(m)) + StringOf(ms[1..]))
            && (m.Code? && IsHigh(UnitOf(m)) && (|ms| == 1 || !ms[1].Code?) ==> StringOf(ms) == StringOf(ms[1..]))
            && (m.Code? && IsHigh(UnitOf(m)) && |ms| > 1 && ms[1].Code? ==>
                  (!IsLow(UnitOf(ms[1])) ==> StringOf(ms) == StringOf(ms[2..]))
                  && (IsLow(UnitOf(ms[1])) ==>
                        Pair(UnitOf(m), UnitOf(ms[1])) < 0x110000
                        && StringOf(ms) == Encode(Pair(UnitOf(m), UnitOf(ms[1]))) + StringOf(ms[2..])))
  {
    hide TokensOf, TokenOf, LooseMark, Encode;
    TokensRest(ms);
    TokenIs(ms[0]);
    if |ms| > 1 {
      TokenIs(ms[1]);
      if ms[0].Code? && ms[1].Code? && IsHigh(UnitOf(ms[0])) && IsLow(UnitOf(ms[1])) {
        SurrogatePair(UnitOf(ms[0]), UnitOf(ms[1]));
      }
    }
  }

  lemma {:induction false} MarksNoShorter(ms: seq<Mark>)
    requires LooseMarks(ms) && forall i :: 0 <= i < |ms| ==> StrictMark(ms[i])
    ensures NoShorter(SpellMarks(ms), LowerMarks(ms), Escaped(StringOf(ms)))
    decreases |ms|
  {
    hide StringOf, SpellMark, LooseMark, StrictMark, LowerMark, Encode, EscapeByte, Escaped, TokenOf, NoShorter;
    if ms == [] {
      EmptyNoShorter();
    } else {
      var m := ms[0];
      MeaningFront(ms);
      var pair := m.Code? && IsHigh(UnitOf(m)) && |ms| > 1 && ms[1].Code?;
      MarksNoShorter(ms[1..]);
      if pair {
        MarksNoShorter(ms[2..]);
        PairNoShorter(ms);
      } else if m.Code? && (UnitOf(m) == 0 || IsLow(UnitOf(m)) || IsHigh(UnitOf(m))) {
        DroppedNoShorter(m, ms[1..]);
      } else {
        MarkNoShorter(m);
        TokenIs(m);
        var s := if m.Code? then Encode(UnitOf(m)) else [TokenOf(m).b];
        Joined(SpellMark(m), LowerMark(m), Escaped(s), SpellMarks(ms[1..]), LowerMarks(ms[1..]),
          Escaped(StringOf(ms[1..])));
        EscapedOfSum(s, StringOf(ms[1..]));
        LowerFront(ms);
      }
    }
  }

  lemma EmptyNoShorter()
    ensures StringOf([]) == [] && Escaped([]) == [] && SpellMarks([]) == [] && LowerMarks([])
    ensures NoShorter([], true, [])
  {
  }

  lemma LowerFront(ms: seq<Mark>)
    requires ms != []
    ensures LowerMarks(ms) <==> LowerMark(ms[0]) && LowerMarks(ms[1..])
  {
    if LowerMark(ms[0]) && LowerMarks(ms[1..]) {
      forall i | 0 <= i < |ms| ensures LowerMark(ms[i]) {
        assert i > 0 ==> ms[i] == ms[1..][i - 1];
      }
    }
  }

  lemma DroppedNoShorter(m: Mark, rest: seq<Mark>)
    requires LooseMark(m) && m.Code? && LooseMarks(rest)
             && NoShorter(SpellMarks(rest), LowerMarks(rest), Escaped(StringOf(rest)))
    ensures |SpellMark(m) + SpellMarks(rest)| > |Escaped(StringOf(rest))|
    ensures forall b: bool :: NoShorter(SpellMark(m) + SpellMarks(rest), b, Escaped(StringOf(rest)))
  {
    hide StringOf, Escaped;
  }

  lemma PairNoShorter(ms: seq<Mark>)
    requires LooseMarks(ms) && |ms| > 1 && ms[0].Code? && ms[1].Code? && IsHigh(UnitOf(ms[0]))
    requires NoShorter(SpellMarks(ms[2..]), LowerMarks(ms[2..]), Escaped(StringOf(ms[2..])))
    ensures forall b: bool :: NoShorter(SpellMarks(ms), b, Escaped(StringOf(ms)))
  {
    hide StringOf, Escaped, Encode;
    MeaningFront(ms);
    assert LooseMark(ms[0]) && LooseMark(ms[1]);
    assert ms[1..][1..] == ms[2..] && ms[1..][0] == ms[1];
    assert SpellMarks(ms) == SpellMark(ms[0]) + (SpellMark(ms[1]) + SpellMarks(ms[2..]));
    assert |SpellMarks(ms)| == 12 + |SpellMarks(ms[2..])|;
    if IsLow(UnitOf(ms[1])) {
      var u := Pair(UnitOf(ms[0]), UnitOf(ms[1]));
      SurrogatePair(UnitOf(ms[0]), UnitOf(ms[1]));
      EscapedCharacter(u);
      EscapedOfSum(Encode(u), StringOf(ms[2..]));
    }
  }

  lemma QuotedNoShorter(ms: seq<Mark>)
    requires LooseMarks(ms) && forall i :: 0 <= i < |ms| ==> StrictMark(ms[i])
    ensures NoShorter(SpellQuoted(ms), LowerMarks(ms), Quote(StringOf(ms)))
  {
    hide StringOf, Escaped, LowerMarks;
    MarksNoShorter(ms);
    assert Quote(StringOf(ms)) == [QUOTE] + (Escaped(StringOf(ms)) + [QUOTE]);
  }

  // ----- Numbers

  lemma LastDigit(m: nat, k: nat)
    requires m >= 1 && k < 10
    ensures Digits(m * 10 + k) == Digits(m) + [ZERO + k]
  {
    assert (m * 10 + k) / 10 == m && (m * 10 + k) % 10 == k;
  }

  lemma MagnitudeGrows(digits: seq<byte>)
    requires AllDigits(digits) && digits != []
    ensures var k := |digits| - 1;
            ZERO <= digits[k] <= NINE && AllDigits(digits[..k])
            && Magnitude(digits) as int == Magnitude(digits[..k]) as int * 10 + (digits[k] as int - 48)
  {
    assert IsDigit(digits[|digits| - 1]);
  }

  /** A number is spelled in one way, but for the sign of a zero. */
  lemma {:induction false} DigitsUnique(digits: seq<byte>)
    requires AllDigits(digits) && digits != [] && digits[0] != ZERO
    ensures Magnitude(digits) >= 1 && Digits(Magnitude(digits)) == digits
    decreases |digits|
  {
    hide Magnitude, Digits;
    var k := |digits| - 1;
    var front, last := digits[..k], digits[k];
    MagnitudeGrows(digits);
    assert digits == front + [last];
    if k == 0 {
      assert front == [];
      NoDigits();
      OneDigit(last as int - 48);
    } else {
      DigitsUnique(front);
      LastDigit(Magnitude(front), last as int - 48);
    }
  }

  lemma OneDigit(k: nat)
    requires k < 10
    ensures Digits(k) == [ZERO + k]
  {
  }

  lemma NumeralNoShorter(d: Phrase)
    requires d.Numeral? && Strict(d) && Loose(d)
    ensures NoShorter(Spell(d), true, Decimal(NumberOf(d.minus, d.digits)))
  {
    hide Digits, Magnitude;
    if d.zero {
      ZeroDigits();
      assert Magnitude(d.digits) == 0 by { NoDigits(); }
    } else {
      DigitsUnique(d.digits);
      assert [] + d.digits == d.digits && [] + ([] + d.digits) == d.digits;
    }
  }

  lemma NoDigits()
    ensures Magnitude([]) == 0
  {
  }

  // ----- Values

  predicate LowerPhrase(d: Phrase)
    decreases d, 1
  {
    match d
    case Quoted(marks) => LowerMarks(marks)
    case Listed(_, items) => LowerItems(items)
    case Braced(_, fields) => LowerFields(fields)
    case _ => true
  }

  predicate LowerItems(s: seq<Item>)
    decreases s, 0
  {
    s == [] || (LowerPhrase(s[0].phrase) && LowerItems(s[1..]))
  }

  predicate LowerFields(s: seq<Field>)
    decreases s, 0
  {
    s == [] || (LowerMarks(s[0].key) && LowerPhrase(s[0].item.phrase) && LowerFields(s[1..]))
  }

  lemma {:induction false} PhraseNoShorter(d: Phrase, depth: nat)
    requires Strict(d) && Loose(d)
    ensures NoShorter(Spell(d), LowerPhrase(d), Render(ValueOf(d), depth, false))
    decreases d, 1
  {
    hide StrictMarks, LooseMarks, StringOf, NumberOf, IsInt32, Decimal, Quote;
    match d
    case NullWord =>
    case FalseWord =>
    case TrueWord =>
    case Numeral(_, _, _) => NumeralNoShorter(d);
    case Quoted(marks) => StrictQuoted(marks);
    case Listed(lead, items) => ListedNoShorter(lead, items, depth);
    case Braced(lead, fields) => BracedNoShorter(lead, fields, depth);
  }

  lemma StrictQuoted(ms: seq<Mark>)
    requires LooseMarks(ms) && StrictMarks(ms)
    ensures NoShorter(SpellQuoted(ms), LowerMarks(ms), Quote(StringOf(ms)))
  {
    hide StringOf, Quote, SpellQuoted;
    QuotedNoShorter(ms);
  }

  lemma {:induction false} ItemNoShorter(i: Item, depth: nat)
    requires StrictItem(i) && LooseItem(i) && Loose(i.phrase)
    ensures NoShorter(SpellItem(i), LowerPhrase(i.phrase), Render(ValueOf(i.phrase), depth, false))
    decreases i, 2
  {
    hide Spell, Loose, Strict, LowerPhrase, Render, ValueOf;
    PhraseNoShorter(i.phrase, depth);
    if |i.before| + |i.after| == 0 {
      assert SpellItem(i) == Spell(i.phrase);
    }
  }

  lemma {:induction false} ListedNoShorter(lead: seq<byte>, items: seq<Item>, depth: nat)
    requires StrictItems(items) && LooseItems(items)
    ensures NoShorter(Spell(Listed(lead, items)), LowerItems(items), Render(Array(ValuesOf(items)), depth, false))
    decreases items, 4
  {
    hide StrictItems, LooseItems, LowerItems, SpellItems, RenderItems, ValuesOf;
    ItemsNoShorter(items, depth + 1);
    BracketsNoShorter(LBRACKET, RBRACKET, lead, SpellItems(items), LowerItems(items),
      RenderItems(ValuesOf(items), depth + 1, false));
  }

  lemma BracketsNoShorter(open: byte, close: byte, lead: seq<byte>, body: seq<byte>, lower: bool, c: seq<byte>)
    requires NoShorter(body, lower, c)
    ensures NoShorter([open] + (lead + (body + [close])), lower, [open] + (c + [close]))
  {
    if lead == [] {
      assert lead + (body + [close]) == body + [close];
    }
  }

  lemma {:induction false} ItemsNoShorter(s: seq<Item>, depth: nat)
    requires StrictItems(s) && LooseItems(s)
    ensures NoShorter(SpellItems(s), LowerItems(s), RenderItems(ValuesOf(s), depth, false))
    decreases s, 3
  {
    hide StrictItem, LooseItem, SpellItem, Loose, LowerPhrase, Render, ValueOf, NoShorter;
    if s == [] {
      EmptyNoShorter();
    } else {
      var i, v, rest := s[0], ValuesOf(s), RenderItems(ValuesOf(s[1..]), depth, false);
      assert LooseItem(i) && StrictItem(i) && Loose(i.phrase) by { ItemParts(s); }
      ItemNoShorter(i, depth);
      ItemsNoShorter(s[1..], depth);
      assert v[1..] == ValuesOf(s[1..]) && v[0] == ValueOf(i.phrase);
      if |s| > 1 {
        CommaNoShorter(SpellItems(s[1..]), LowerItems(s[1..]), rest);
        Joined(SpellItem(i), LowerPhrase(i.phrase), Render(v[0], depth, false), [COMMA] + SpellItems(s[1..]),
          LowerItems(s[1..]), [COMMA] + rest);
      } else {
        assert SpellItems(s) == SpellItem(i) + [] == SpellItem(i);
        assert s[1..] == [];
      }
    }
  }

  lemma ItemParts(s: seq<Item>)
    requires s != [] && LooseItems(s) && StrictItems(s)
    ensures LooseItem(s[0]) && StrictItem(s[0]) && Loose(s[0].phrase)
  {
  }

  lemma CommaNoShorter(s: seq<byte>, lower: bool, c: seq<byte>)
    requires NoShorter(s, lower, c)
    ensures NoShorter([COMMA] + s, lower, [COMMA] + c)
  {
  }

  lemma {:induction false} BracedNoShorter(lead: seq<byte>, fields: seq<Field>, depth: nat)
    requires StrictFields(fields) && LooseFields(fields)
    ensures NoShorter(Spell(Braced(lead, fields)), LowerFields(fields), Render(Object(MembersOf(fields)), depth, false))
    decreases fields, 4
  {
    hide StrictFields, LooseFields, LowerFields, SpellFields, RenderMembers, MembersOf;
    FieldsNoShorter(fields, depth + 1);
    var c, d := RenderMembers(MembersOf(fields), depth + 1, false), if fields == [] then depth - 1 else depth;
    BracketsNoShorter(LBRACE, RBRACE, lead, SpellFields(fields), LowerFields(fields), c);
    assert Indent(d, false) == [] && Indent(d, false) + [RBRACE] == [RBRACE];
    assert [] + (c + [RBRACE]) == c + [RBRACE];
  }

  lemma {:induction false} FieldNoShorter(f: Field, depth: nat)
    requires StrictField(f) && LooseField(f) && LooseItem(f.item) && Loose(f.item.phrase) && LooseMarks(f.key)
    ensures NoShorter(SpellField(f), LowerMarks(f.key) && LowerPhrase(f.item.phrase),
            RenderMember(MemberOf(f), depth, false))
    decreases f, 3
  {
    hide SpellQuoted, SpellItem, Loose, LooseMarks, StrictMarks, StrictItem, LowerMarks, LowerPhrase, Render, ValueOf,
      StringOf, Quote, NoShorter;
    var key, v := Quote(StringOf(f.key)), Render(ValueOf(f.item.phrase), depth, false);
    StrictQuoted(f.key);
    ItemNoShorter(f.item, depth);
    Joined(SpellQuoted(f.key), LowerMarks(f.key), key, [COLON] + SpellItem(f.item), LowerPhrase(f.item.phrase),
      [COLON] + v) by { ColonNoShorter(SpellItem(f.item), LowerPhrase(f.item.phrase), v); }
    BlanksNoShorter(f.before, SpellQuoted(f.key), f.mid, [COLON] + SpellItem(f.item),
      LowerMarks(f.key) && LowerPhrase(f.item.phrase), key + ([COLON] + v));
    assert Indent(depth, false) == [] && Indent(1, false) == [];
    assert [] + (key + ([COLON] + ([] + v))) == key + ([COLON] + v);
  }

  lemma ColonNoShorter(s: seq<byte>, lower: bool, c: seq<byte>)
    requires NoShorter(s, lower, c)
    ensures NoShorter([COLON] + s, lower, [COLON] + c)
  {
  }

  lemma BlanksNoShorter(before: seq<byte>, a: seq<byte>, mid: seq<byte>, b: seq<byte>, lower: bool, c: seq<byte>)
    requires NoShorter(a + b, lower, c)
    ensures NoShorter(before + (a + (mid + b)), lower, c)
  {
    if |before| + |mid| == 0 {
      assert before + (a + (mid + b)) == a + b;
    }
  }

  lemma {:induction false} FieldsNoShorter(s: seq<Field>, depth: nat)
    requires StrictFields(s) && LooseFields(s)
    ensures NoShorter(SpellFields(s), LowerFields(s), RenderMembers(MembersOf(s), depth, false))
    decreases s, 3
  {
    hide StrictField, LooseField, SpellField, Loose, LowerPhrase, LowerMarks, RenderMember, MemberOf, NoShorter;
    if s == [] {
      EmptyNoShorter();
    } else {
      var f, m, rest := s[0], MembersOf(s), RenderMembers(MembersOf(s[1..]), depth, false);
      FieldParts(s);
      FieldNoShorter(f, depth);
      FieldsNoShorter(s[1..], depth);
      assert m[1..] == MembersOf(s[1..]) && m[0] == MemberOf(f);
      var lower := LowerMarks(f.key) && LowerPhrase(f.item.phrase);
      if |s| > 1 {
        CommaNoShorter(SpellFields(s[1..]), LowerFields(s[1..]), rest);
        Joined(SpellField(f), lower, RenderMember(m[0], depth, false), [COMMA] + SpellFields(s[1..]),
          LowerFields(s[1..]), [COMMA] + rest);
        assert [] + rest == rest;
      } else {
        assert SpellFields(s) == SpellField(f) + [] == SpellField(f);
        assert s[1..] == [] && rest == [];
        assert RenderMember(m[0], depth, false) + ([] + ([] + rest)) == RenderMember(m[0], depth, false);
      }
    }
  }

  lemma FieldParts(s: seq<Field>)
    requires s != [] && LooseFields(s) && StrictFields(s)
    ensures LooseField(s[0]) && StrictField(s[0]) && LooseItem(s[0].item) && Loose(s[0].item.phrase)
            && LooseMarks(s[0].key)
  {
  }

  /** Of all conforming texts that are read for a value, none is shorter than the one that is printed for it in the
      compact layout, and a text that is as short is that one, unless it has hexadecimal digits in upper case. */
  lemma CompactIsShortest(i: Item)
    requires StrictItem(i)
    ensures Loose(i.phrase) && ReadText(SpellItem(i), true).Parsed?
    ensures var c := Render(ReadText(SpellItem(i), true).value, 0, false);
            |SpellItem(i)| >= |c| && (|SpellItem(i)| == |c| && LowerPhrase(i.phrase) ==> SpellItem(i) == c)
  {
    hide ReadText, SpellItem, Loose, LooseItem, StrictItem, Render, ValueOf, LowerPhrase;
    StrictItemIsLoose(i);
    LoosePhrase(i);
    SyntaxLaws.TextSpelled(i);
    ItemNoShorter(i, 0);
  }
}
