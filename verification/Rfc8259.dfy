/**
  RFC 8259 and the parser: every conforming text is accepted, for the value it
  is meant to have unless it contains `\u0000`; and what is accepted besides.
 */
module Rfc8259 {
  import opened Bytes
  import opened Utf
  import opened Literals
  import opened Values
  import opened Grammar
  import opened Syntax
  import opened Derivations
  import opened SyntaxLaws
  import opened Conformance

  // ----- Which accepted texts conform

  /** A JSON text as RFC 8259 has it, with integers of 32 bits only. */
  ghost predicate Conforms(t: seq<byte>) {
    exists i :: StrictItem(i) && SpellItem(i) == t
  }

  lemma StrictItemIsLoose(i: Item)
    requires StrictItem(i)
    ensures LooseItem(i)
  {
    StrictIsLoose(i.phrase);
  }

  /** Every conforming text is accepted as a whole. */
  lemma ConformingIsAccepted(t: seq<byte>)
    requires Conforms(t)
    ensures ReadText(t, true).Parsed? && StrictItem(DeriveText(t))
  {
    hide StrictItem, LooseItem, SpellItem, ReadText;
    var i :| StrictItem(i) && SpellItem(i) == t;
    StrictItemIsLoose(i);
    Accepted(i);
    TextSpelled(i);
  }

  /** A text conforms if and only if it is accepted and what is read off of it meets the strict rules for blanks,
      numbers, characters and escapes. */
  lemma ConformsExactly(t: seq<byte>)
    requires NulFree(t)
    ensures Conforms(t) <==> ReadText(t, true).Parsed? && StrictItem(DeriveText(t))
  {
    hide StrictItem, LooseItem, SpellItem, ReadText;
    if Conforms(t) {
      ConformingIsAccepted(t);
    }
    if ReadText(t, true).Parsed? && StrictItem(DeriveText(t)) {
      TextDerived(t);
    }
  }

  /** A text that is made up loosely, and not strictly, is accepted and does not conform. */
  lemma Beyond(i: Item)
    requires LooseItem(i) && !StrictItem(i)
    ensures var t := SpellItem(i);
            ReadText(t, true) == Parsed(ValueOf(i.phrase), |t|) && !Conforms(t)
  {
    hide StrictItem, LooseItem, SpellItem, ReadText, ValueOf;
    LoosePhrase(i);
    TextSpelled(i);
    if Conforms(SpellItem(i)) {
      ConformingIsAccepted(SpellItem(i));
    }
  }

  lemma LoosePhrase(i: Item)
    requires LooseItem(i)
    ensures Loose(i.phrase)
  {
  }

  // ----- What is accepted besides

  function Alone(p: Phrase): Item {
    Item([], p, [])
  }

  lemma AloneIs(p: Phrase)
    requires Loose(p)
    ensures LooseItem(Alone(p)) && SpellItem(Alone(p)) == Spell(p) && (StrictItem(Alone(p)) ==> Strict(p))
  {
    assert [] + (Spell(p) + []) == Spell(p);
  }

  function Ascii(s: string): seq<byte>
    requires forall i :: 0 <= i < |s| ==> s[i] as int < 128
  {
    seq(|s|, i requires 0 <= i < |s| => s[i] as int)
  }

  /** The words, as characters. */
  lemma WordsRead()
    ensures ReadText(Ascii("null"), true) == Parsed(Null, 4)
    ensures ReadText(Ascii("false"), true) == Parsed(False, 5)
    ensures ReadText(Ascii("true"), true) == Parsed(True, 4)
  {
    WordAlone(NullWord);
    WordAlone(FalseWord);
    WordAlone(TrueWord);
    assert Ascii("null") == NULL_TEXT && Ascii("false") == FALSE_TEXT && Ascii("true") == TRUE_TEXT;
  }

  lemma WordAlone(d: Phrase)
    requires d.NullWord? || d.FalseWord? || d.TrueWord?
    ensures ReadText(Spell(d), true) == Parsed(ValueOf(d), |Spell(d)|)
  {
    hide ReadText;
    AloneIs(d);
    TextSpelled(Alone(d));
  }

  /** A sign alone is a zero. */
  lemma LoneSign()
    ensures ReadText([MINUS], true) == Parsed(Number(0), 1) && !Conforms([MINUS])
  {
    var d := Numeral(true, false, []);
    AloneIs(d);
    Beyond(Alone(d));
  }

  /** A leading zero, in front of any other digits. */
  lemma LeadingZero(minus: bool, digits: seq<byte>)
    requires AllDigits(digits) && digits != [] && digits[0] != ZERO && IsInt32(NumberOf(minus, digits))
    ensures var t := (if minus then [MINUS] else []) + ([ZERO] + digits);
            ReadText(t, true) == Parsed(Number(NumberOf(minus, digits)), |t|) && !Conforms(t)
  {
    hide Magnitude, NumberOf;
    var d := Numeral(minus, true, digits);
    AloneIs(d);
    Beyond(Alone(d));
  }

  /** Any control character for a blank. */
  lemma ControlBlank(c: byte)
    requires c != NUL && c < SPACE && c !in {TAB, LF, CR}
    ensures ReadText([c, ZERO], true) == Parsed(Number(0), 2) && !Conforms([c, ZERO])
  {
    var i := Item([c], Numeral(false, true, []), []);
    assert [c] + (([] + ([ZERO] + [])) + []) == [c, ZERO];
    assert !Spaces(i.before) by { assert i.before[0] == c; }
    Beyond(i);
  }

  lemma OneMark(m: Mark)
    requires LooseMark(m) && !m.Code?
    ensures LooseMarks([m]) && SpellQuoted([m]) == [QUOTE] + SpellMark(m) + [QUOTE]
    ensures StringOf([m]) == [TokenOf(m).b]
    ensures StrictMarks([m]) ==> StrictMark(m) && Utf8(SpellMark(m))
  {
    assert [m][1..] == [] && SpellMarks([m]) == SpellMark(m) + [] == SpellMark(m);
    assert TokensOf([m]) == [TokenOf(m)] && [TokenOf(m)][1..] == [] && Meaning([]) == [];
    assert Meaning([TokenOf(m)]) == [TokenOf(m).b] + Meaning([]);
    assert StrictMarks([m]) ==> StrictMark([m][0]);
  }

  lemma BeyondMark(m: Mark)
    requires LooseMark(m) && !m.Code? && !(StrictMark(m) && Utf8(SpellMark(m)))
    ensures var t := [QUOTE] + SpellMark(m) + [QUOTE];
            ReadText(t, true) == Parsed(String([TokenOf(m).b]), |t|) && !Conforms(t)
  {
    hide ReadText, SpellItem, LooseItem, StrictItem, SpellMark, StringOf, LooseMark, StrictMark, StrictMarks, TokenOf;
    OneMark(m);
    AloneIs(Quoted([m]));
    Beyond(Alone(Quoted([m])));
  }

  /** Any control character in a string. */
  lemma ControlInString(c: byte)
    requires c != NUL && c < SPACE
    ensures ReadText([QUOTE, c, QUOTE], true) == Parsed(String([c]), 3) && !Conforms([QUOTE, c, QUOTE])
  {
    assert [QUOTE] + SpellMark(Raw(c)) + [QUOTE] == [QUOTE, c, QUOTE];
    BeyondMark(Raw(c));
  }

  /** Any byte in a string that is no UTF-8. */
  lemma NoUtf8InString(c: byte)
    requires c >= 0x80
    ensures ReadText([QUOTE, c, QUOTE], true) == Parsed(String([c]), 3) && !Conforms([QUOTE, c, QUOTE])
  {
    assert forall n :: 1 <= n <= |[c]| ==> !WellFormed([c][..n]);
    assert !Utf8([c]);
    assert [QUOTE] + SpellMark(Raw(c)) + [QUOTE] == [QUOTE, c, QUOTE];
    BeyondMark(Raw(c));
  }

  /** A backslash in front of any character that has no escape. */
  lemma UnknownEscape(c: byte)
    requires c !in {NUL, QUOTE, BACKSLASH, SLASH, LOWER_B, LOWER_F, LOWER_N, LOWER_R, LOWER_T, LOWER_U}
    ensures var t := [QUOTE, BACKSLASH, c, QUOTE];
            ReadText(t, true) == Parsed(String([c]), 4) && !Conforms(t)
  {
    assert [QUOTE] + SpellMark(Short(c)) + [QUOTE] == [QUOTE, BACKSLASH, c, QUOTE];
    BeyondMark(Short(c));
  }
}
