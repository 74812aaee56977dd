/**
  How an accepted text is made up, read off along with its value; and the laws
  for the leaves: literals and numbers.
 */
module Derivations {
  import opened Bytes
  import opened Utf
  import opened Literals
  import opened Values
  import opened Grammar
  import opened RoundTrip
  import opened Syntax

  // ----- Reading off how a text is made up

  ghost function DeriveMarks(t: seq<byte>, q: nat): (ms: seq<Mark>)
    requires Lex(t, q).Closed?
    decreases |t| - q
  {
    if t[q] == QUOTE then []
    else if t[q] != BACKSLASH then [Raw(t[q])] + DeriveMarks(t, q + 1)
    else if t[q + 1] != LOWER_U then [Short(t[q + 1])] + DeriveMarks(t, q + 2)
    else [Code(t[q + 2..q + 6])] + DeriveMarks(t, q + 6)
  }

  ghost function DeriveNumeral(t: seq<byte>, p: nat): Phrase
    requires p <= |t|
  {
    var minus := At(t, p) == MINUS;
    var start := DigitsStart(t, p);
    Numeral(minus, At(t, if minus then p + 1 else p) == ZERO, t[start..NumberEnd(t, start)])
  }

  ghost function Derive(t: seq<byte>, p: nat): Phrase
    requires p <= |t| && ReadValue(t, p).Parsed?
    decreases |t| - p, 1
  {
    if Has(t, p, NULL_TEXT) then NullWord
    else if Has(t, p, FALSE_TEXT) then FalseWord
    else if Has(t, p, TRUE_TEXT) then TrueWord
    else if At(t, p) == QUOTE then Quoted(DeriveMarks(t, p + 1))
    else if At(t, p) == MINUS || IsDigit(At(t, p)) then DeriveNumeral(t, p)
    else if At(t, p) == LBRACKET then
      var q := Skip(t, p + 1);
      if At(t, q) == RBRACKET then Listed(t[p + 1..q], [])
      else
        SkipStays(t, q);
        EntriesSkip(t, p + 1, q);
        Listed([], DeriveItems(t, p + 1))
    else
      var q := Skip(t, p + 1);
      if At(t, q) == RBRACE then Braced(t[p + 1..q], [])
      else
        SkipStays(t, q);
        EntriesSkip(t, p + 1, q);
        Braced([], DeriveFields(t, p + 1))
  }

  ghost function DeriveItems(t: seq<byte>, p: nat): (s: seq<Item>)
    requires p <= |t| && ReadItems(t, p).Parsed?
    decreases |t| - p, 2
  {
    var q := Skip(t, p);
    var e := ReadValue(t, q).end;
    var n := Skip(t, e);
    [Item(t[p..q], Derive(t, q), t[e..n])] + if At(t, n) == COMMA then DeriveItems(t, n + 1) else []
  }

  ghost function DeriveField(t: seq<byte>, p: nat): Field
    requires p <= |t| && ReadMember(t, p).Parsed?
    decreases |t| - p, 2
  {
    var q := Skip(t, p);
    var k := ReadString(t, q).end;
    var c := Skip(t, k);
    var v := Skip(t, c + 1);
    var e := ReadValue(t, v).end;
    Field(t[p..q], DeriveMarks(t, q + 1), t[k..c], Item(t[c + 1..v], Derive(t, v), t[e..Skip(t, e)]))
  }

  ghost function DeriveFields(t: seq<byte>, p: nat): (s: seq<Field>)
    requires p <= |t| && ReadMembers(t, p).Parsed?
    decreases |t| - p, 3
  {
    var n := ReadMember(t, p).end;
    [DeriveField(t, p)] + if At(t, n) == COMMA then DeriveFields(t, n + 1) else []
  }

  /** A text that is accepted as a whole. */
  ghost function DeriveText(t: seq<byte>): Item
    requires ReadText(t, true).Parsed?
  {
    var q := Skip(t, 0);
    Item(t[..q], Derive(t, q), t[ReadValue(t, q).end..])
  }

  // ----- Literals

  lemma HasSlice(t: seq<byte>, p: nat, a: nat, b: nat)
    requires p <= a <= b <= |t|
    ensures t[p..b] == t[p..a] + t[a..b]
  {
  }

  lemma MarkSpelled(t: seq<byte>, q: nat, m: Mark, rest: Literal)
    requires LooseMark(m) && Has(t, q, SpellMark(m)) && Lex(t, q + |SpellMark(m)|) == rest && rest.Closed?
    ensures Lex(t, q) == Closed([TokenOf(m)] + rest.tokens, rest.end)
    ensures DeriveMarks(t, q) == [m] + DeriveMarks(t, q + |SpellMark(m)|)
  {
    var s := SpellMark(m);
    HasByte(t, q, s, 0);
    if !m.Raw? {
      HasByte(t, q, s, 1);
    }
    if m.Code? {
      HasParts(t, q, [BACKSLASH, LOWER_U], m.digits);
      forall k: nat | k < 4 ensures t[q + 2 + k] == m.digits[k] { HasByte(t, q + 2, m.digits, k); }
      assert t[q + 2 + 0] == m.digits[0] && t[q + 2 + 1] == m.digits[1];
      assert t[q + 2 + 2] == m.digits[2] && t[q + 2 + 3] == m.digits[3];
      assert t[q + 2..q + 6] == m.digits;
    }
  }

  lemma {:induction false} MarksSpelled(t: seq<byte>, q: nat, ms: seq<Mark>)
    requires LooseMarks(ms) && Has(t, q, SpellMarks(ms) + [QUOTE])
    ensures Lex(t, q) == Closed(TokensOf(ms), q + |SpellMarks(ms)| + 1) && DeriveMarks(t, q) == ms
    decreases |ms|
  {
    hide Has, Lex, LooseMark, SpellMark, TokenOf, DeriveMarks;
    if ms == [] {
      assert SpellMarks(ms) + [QUOTE] == [QUOTE];
      HasByte(t, q, [QUOTE], 0);
      EmptyMarks(t, q);
    } else {
      var s, rest := SpellMark(ms[0]), SpellMarks(ms[1..]) + [QUOTE];
      assert SpellMarks(ms) + [QUOTE] == s + rest;
      HasParts(t, q, s, rest);
      MarksSpelled(t, q + |s|, ms[1..]);
      MarkSpelled(t, q, ms[0], Lex(t, q + |s|));
      assert [ms[0]] + ms[1..] == ms;
    }
  }

  lemma EmptyMarks(t: seq<byte>, q: nat)
    requires q < |t| && t[q] == QUOTE
    ensures Lex(t, q) == Closed([], q + 1) && DeriveMarks(t, q) == []
  {
  }

  lemma StringSpelled(t: seq<byte>, p: nat, ms: seq<Mark>)
    requires LooseMarks(ms) && Has(t, p, SpellQuoted(ms))
    ensures At(t, p) == QUOTE && ReadString(t, p) == Parsed(StringOf(ms), p + |SpellQuoted(ms)|)
    ensures Lex(t, p + 1).Closed? && DeriveMarks(t, p + 1) == ms
  {
    hide Has, Lex, Meaning;
    HasByte(t, p, SpellQuoted(ms), 0);
    HasParts(t, p, [QUOTE], SpellMarks(ms) + [QUOTE]);
    MarksSpelled(t, p + 1, ms);
  }

  lemma UnitSlice(t: seq<byte>, p: nat)
    requires HasHex4(t, p)
    ensures p + 4 <= |t| && HasHex4(t[p..p + 4], 0) && Unit(t[p..p + 4], 0) == Unit(t, p)
  {
    var s := t[p..p + 4];
    assert s[0] == t[p] && s[1] == t[p + 1] && s[2] == t[p + 2] && s[3] == t[p + 3];
  }

  /** The first mark of a literal that does not end here, and where the next one starts. */
  lemma MarkDerived(t: seq<byte>, q: nat) returns (m: Mark, n: nat)
    requires NulFree(t) && Lex(t, q).Closed? && t[q] != QUOTE
    ensures q < n <= |t| && LooseMark(m) && t[q..n] == SpellMark(m)
    ensures Lex(t, n).Closed? && Lex(t, q) == Closed([TokenOf(m)] + Lex(t, n).tokens, Lex(t, n).end)
    ensures DeriveMarks(t, q) == [m] + DeriveMarks(t, n)
  {
    hide HasHex4, Unit;
    if t[q] != BACKSLASH {
      m, n := Raw(t[q]), q + 1;
    } else if t[q + 1] != LOWER_U {
      m, n := Short(t[q + 1]), q + 2;
    } else {
      UnitSlice(t, q + 2);
      m, n := Code(t[q + 2..q + 6]), q + 6;
      HasSlice(t, q, q + 2, n);
      assert t[q..q + 2] == [BACKSLASH, LOWER_U];
    }
  }

  lemma {:induction false} MarksDerived(t: seq<byte>, q: nat)
    requires NulFree(t) && Lex(t, q).Closed?
    ensures var ms := DeriveMarks(t, q);
            && LooseMarks(ms) && TokensOf(ms) == Lex(t, q).tokens
            && t[q..Lex(t, q).end] == SpellMarks(ms) + [QUOTE]
    decreases |t| - q
  {
    hide Lex, DeriveMarks, LooseMark, SpellMark, TokenOf, NulFree;
    LexShape(t, q);
    if t[q] == QUOTE {
      EmptyMarks(t, q);
      assert t[q..q + 1] == [QUOTE];
    } else {
      var m, n := MarkDerived(t, q);
      MarksDerived(t, n);
      var ms, rest := DeriveMarks(t, q), DeriveMarks(t, n);
      assert ms[1..] == rest;
      HasSlice(t, q, n, Lex(t, n).end);
      assert SpellMark(m) + (SpellMarks(rest) + [QUOTE]) == SpellMarks(ms) + [QUOTE];
    }
  }

  lemma StringDerived(t: seq<byte>, p: nat)
    requires p <= |t| && NulFree(t) && ReadString(t, p).Parsed?
    ensures var ms, e := DeriveMarks(t, p + 1), ReadString(t, p).end;
            LooseMarks(ms) && StringOf(ms) == ReadString(t, p).value && t[p..e] == SpellQuoted(ms)
  {
    hide Lex, Meaning;
    MarksDerived(t, p + 1);
    HasSlice(t, p, p + 1, Lex(t, p + 1).end);
    assert t[p..p + 1] == [QUOTE];
  }

  // ----- Numbers

  /** A run of digits is read as a number, unless a fraction or an exponent follows or it takes more than 32 bits. */
  lemma NumberRead(t: seq<byte>, p: nat, d: Phrase)
    requires d.Numeral? && Numeric(d.minus, d.zero, d.digits) && Has(t, p, Spell(d))
    requires p + |Spell(d)| <= |t| && !IsDigit(At(t, p + |Spell(d)|))
    ensures p <= |t|
    ensures var e := p + |Spell(d)|; var n := NumberOf(d.minus, d.digits);
            ReadNumber(t, p)
            == if (At(t, e) == DOT && IsDigit(At(t, e + 1))) || At(t, e) in {LOWER_E, UPPER_E} || !IsInt32(n)
               then Outside else Parsed(n, e)
    ensures (At(t, p) == MINUS || IsDigit(At(t, p))) && DeriveNumeral(t, p) == d
  {
    hide Has, Magnitude, DigitsEnd, DigitsStart, NumberEnd, Spell;
    NumeralLayout(t, p, d);
    StartIs(t, p, d.minus, d.zero);
    EndIs(t, (if d.minus then p + 1 else p) + (if d.zero then 1 else 0), d.digits);
  }

  lemma NumeralSpelled(t: seq<byte>, p: nat, d: Phrase)
    requires d.Numeral? && Loose(d) && Has(t, p, Spell(d)) && EndsNumber(At(t, p + |Spell(d)|))
    ensures At(t, p) == MINUS || IsDigit(At(t, p))
    ensures ReadNumber(t, p) == Parsed(NumberOf(d.minus, d.digits), p + |Spell(d)|) && DeriveNumeral(t, p) == d
  {
    hide Has, Magnitude, ReadNumber, DeriveNumeral, Spell;
    HasAll(t, p, Spell(d));
    NumberRead(t, p, d);
  }

  lemma NumeralIs(d: Phrase)
    requires d.Numeral?
    ensures Spell(d) == (if d.minus then [MINUS] else []) + ((if d.zero then [ZERO] else []) + d.digits)
  {
  }

  lemma ThreeParts(t: seq<byte>, p: nat, a: seq<byte>, b: seq<byte>, c: seq<byte>)
    requires Has(t, p, a + (b + c))
    ensures var q := p + |a|; var r := q + |b|;
            && r + |c| <= |t| && t[r..r + |c|] == c
            && (a != [] ==> t[p] == a[0]) && (b != [] ==> t[q] == b[0])
  {
    hide Has;
    HasParts(t, p, a, b + c);
    HasParts(t, p + |a|, b, c);
    HasAll(t, p, a);
    HasAll(t, p + |a|, b);
    HasAll(t, p + |a| + |b|, c);
  }

  /** Where the parts of a number lie, and that they can be told apart. */
  lemma NumeralLayout(t: seq<byte>, p: nat, d: Phrase)
    requires d.Numeral? && Numeric(d.minus, d.zero, d.digits) && Has(t, p, Spell(d))
    requires p + |Spell(d)| <= |t| && !IsDigit(At(t, p + |Spell(d)|))
    ensures var z := if d.minus then p + 1 else p;
            var start := z + if d.zero then 1 else 0;
            && start + |d.digits| == p + |Spell(d)| <= |t| && t[start..start + |d.digits|] == d.digits
            && (d.minus <==> At(t, p) == MINUS) && (d.zero <==> At(t, z) == ZERO)
            && (d.minus || IsDigit(At(t, p)))
  {
    hide Has, Spell, Numeric;
    NumeralIs(d);
    var sign, zero := if d.minus then [MINUS] else [], if d.zero then [ZERO] else [];
    var z := p + |sign|;
    ThreeParts(t, p, sign, zero, d.digits);
    TellApart(t, p, z, z + |zero|, d);
  }

  lemma TellApart(t: seq<byte>, p: nat, z: nat, start: nat, d: Phrase)
    requires d.Numeral? && Numeric(d.minus, d.zero, d.digits) && p <= z <= start <= start + |d.digits| <= |t|
    requires z == (if d.minus then p + 1 else p) && start == z + if d.zero then 1 else 0
    requires (d.minus ==> t[p] == MINUS) && (d.zero ==> t[z] == ZERO) && t[start..start + |d.digits|] == d.digits
    requires !IsDigit(At(t, start + |d.digits|))
    ensures (d.minus <==> At(t, p) == MINUS) && (d.zero <==> At(t, z) == ZERO) && (d.minus || IsDigit(At(t, p)))
  {
    if !d.zero && d.digits != [] {
      assert t[z] == d.digits[0] && IsDigit(d.digits[0]);
    }
  }

  lemma StartIs(t: seq<byte>, p: nat, minus: bool, zero: bool)
    requires p <= |t| && (minus <==> At(t, p) == MINUS) && (zero <==> At(t, if minus then p + 1 else p) == ZERO)
    ensures DigitsStart(t, p) == (if minus then p + 1 else p) + if zero then 1 else 0
  {
  }

  lemma EndIs(t: seq<byte>, start: nat, digits: seq<byte>)
    requires start + |digits| <= |t| && t[start..start + |digits|] == digits && AllDigits(digits)
    requires (digits != [] ==> digits[0] != ZERO) && !IsDigit(At(t, start + |digits|))
    ensures NumberEnd(t, start) == start + |digits|
  {
    forall i | start <= i < start + |digits| ensures IsDigit(t[i]) {
      assert digits[i - start] == t[i];
    }
    DigitsEndAt(t, start, start + |digits|);
  }

  lemma HasAll(t: seq<byte>, p: nat, s: seq<byte>)
    requires Has(t, p, s)
    ensures p + |s| <= |t| && t[p..p + |s|] == s && forall i :: p <= i < p + |s| ==> t[i] == s[i - p]
  {
    forall i | p <= i < p + |s| ensures t[i] == s[i - p] {
      HasByte(t, p, s, i - p);
    }
  }

  lemma NumeralDerived(t: seq<byte>, p: nat)
    requires p < |t| && ReadNumber(t, p).Parsed? && (t[p] == MINUS || IsDigit(t[p]))
    ensures var d, r := DeriveNumeral(t, p), ReadNumber(t, p);
            Loose(d) && NumberOf(d.minus, d.digits) == r.value && t[p..r.end] == Spell(d)
  {
    hide Magnitude, DigitsEnd, DigitsStart, NumberEnd, Spell;
    var d := DeriveNumeral(t, p);
    var start := DigitsStart(t, p);
    var z := if d.minus then p + 1 else p;
    NumberFrom(t, start);
    SignSlice(t, p, z, start, d);
    NumeralSlice(t, p, z, start, NumberEnd(t, start), d);
  }

  lemma NumeralSlice(t: seq<byte>, p: nat, z: nat, start: nat, end: nat, d: Phrase)
    requires d.Numeral? && p <= z <= start <= end <= |t| && t[start..end] == d.digits
    requires t[p..z] == (if d.minus then [MINUS] else []) && t[z..start] == if d.zero then [ZERO] else []
    ensures t[p..end] == Spell(d)
  {
    HasSlice(t, p, z, end);
    HasSlice(t, z, start, end);
  }

  lemma NumberFrom(t: seq<byte>, start: nat)
    requires start <= |t|
    ensures var digits := t[start..NumberEnd(t, start)];
            && (digits != [] ==> digits[0] != ZERO)
            && (digits == [] ==> !(ONE <= At(t, start) <= NINE))
  {
  }

  lemma SignSlice(t: seq<byte>, p: nat, z: nat, start: nat, d: Phrase)
    requires p < |t| && d == DeriveNumeral(t, p) && start == DigitsStart(t, p) && z == if d.minus then p + 1 else p
    ensures p <= z <= start <= |t|
    ensures t[p..z] == (if d.minus then [MINUS] else []) && t[z..start] == if d.zero then [ZERO] else []
  {
    hide NumberEnd;
  }
}
