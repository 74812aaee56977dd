/**
  What a conforming text is meant to stand for, by section 7 of RFC 8259, and
  exactly when it is read as that.
 */
module RfcValues {
  import opened Bytes
  import opened Utf
  import opened Literals
  import opened Values
  import opened Grammar
  import opened Syntax
  import opened SyntaxLaws
  import opened Conformance
  import opened Rfc8259
  import opened PrintedConforms

  // ----- Strings

  function UnitOf(m: Mark): nat
    requires LooseMark(m) && m.Code?
  {
    Unit(m.digits, 0)
  }

  /** Every surrogate is one of a pair. What others mean is left open by section 8.2 of RFC 8259. */
  predicate Paired(ms: seq<Mark>)
    requires LooseMarks(ms)
    decreases |ms|
  {
    if ms == [] then true
    else if !ms[0].Code? then Paired(ms[1..])
    else if IsHigh(UnitOf(ms[0])) then |ms| > 1 && ms[1].Code? && IsLow(UnitOf(ms[1])) && Paired(ms[2..])
    else !IsLow(UnitOf(ms[0])) && Paired(ms[1..])
  }

  /** The character that a two-character escape represents. */
  function Represented(b: byte): byte {
    match b
    case 98 => BS
    case 102 => FF
    case 110 => LF
    case 114 => CR
    case 116 => TAB
    case _ => b
  }

  /** The characters of a literal, in UTF-8. */
  function Meant(ms: seq<Mark>): seq<byte>
    requires LooseMarks(ms) && Paired(ms)
    decreases |ms|
  {
    if ms == [] then []
    else if ms[0].Raw? then [ms[0].b] + Meant(ms[1..])
    else if ms[0].Short? then [Represented(ms[0].b)] + Meant(ms[1..])
    else if IsHigh(UnitOf(ms[0])) then
      Encode(0x10000 + (UnitOf(ms[0]) - 0xD800) * 0x400 + (UnitOf(ms[1]) - 0xDC00)) + Meant(ms[2..])
    else Encode(UnitOf(ms[0])) + Meant(ms[1..])
  }

  /** No escape for the character NUL. */
  predicate NoZero(ms: seq<Mark>)
    requires LooseMarks(ms)
  {
    forall i :: 0 <= i < |ms| && ms[i].Code? ==> UnitOf(ms[i]) != 0
  }

  lemma SurrogatePair(hi: nat, lo: nat)
    requires IsHigh(hi) && IsLow(lo)
    ensures Pair(hi, lo) == 0x10000 + (hi - 0xD800) * 0x400 + (lo - 0xDC00) < 0x110000
  {
    assert hi % 0x400 == hi - 0xD800 && lo % 0x400 == lo - 0xDC00;
  }

  lemma TokensRest(ms: seq<Mark>)
    requires LooseMarks(ms) && ms != []
    ensures TokensOf(ms)[0] == TokenOf(ms[0]) && TokensOf(ms)[1..] == TokensOf(ms[1..]) && |TokensOf(ms)| >= 1
    ensures |ms| > 1 ==>
              |TokensOf(ms)| > 1 && TokensOf(ms)[1] == TokenOf(ms[1]) && TokensOf(ms)[2..] == TokensOf(ms[2..])
  {
    if |ms| > 1 {
      assert ms[1..][1..] == ms[2..] && ms[1..][0] == ms[1];
      assert TokensOf(ms)[2..] == TokensOf(ms)[1..][1..];
    }
  }

  lemma {:induction false} ReadAsMeant(ms: seq<Mark>)
    requires LooseMarks(ms) && Paired(ms) && NoZero(ms)
    ensures StringOf(ms) == Meant(ms)
    decreases |ms|
  {
    hide TokensOf, TokenOf, LooseMark, Encode;
    if ms == [] {
      NoTokens();
    } else {
      TokensRest(ms);
      TokenIs(ms[0]);
      if ms[0].Code? && IsHigh(UnitOf(ms[0])) {
        TokenIs(ms[1]);
        SurrogatePair(UnitOf(ms[0]), UnitOf(ms[1]));
        ReadAsMeant(ms[2..]);
      } else {
        ReadAsMeant(ms[1..]);
      }
    }
  }

  lemma NoTokens()
    ensures TokensOf([]) == []
  {
  }

  lemma TokenIs(m: Mark)
    requires LooseMark(m)
    ensures TokenOf(m) == match m case Raw(b) => Plain(b) case Short(b) => Plain(Represented(b))
                                   case Code(_) => Unit16(UnitOf(m))
  {
  }

  lemma {:induction false} ZeroIsMeant(ms: seq<Mark>)
    requires LooseMarks(ms) && Paired(ms) && !NoZero(ms)
    ensures !NulFree(Meant(ms))
    decreases |ms|
  {
    hide LooseMark, Encode;
    if !ms[0].Code? {
      ZeroIsMeant(ms[1..]);
      NulBehind([if ms[0].Raw? then ms[0].b else Represented(ms[0].b)], Meant(ms[1..]));
    } else if IsHigh(UnitOf(ms[0])) {
      SurrogatePair(UnitOf(ms[0]), UnitOf(ms[1]));
      ZeroIsMeant(ms[2..]);
      NulBehind(Encode(0x10000 + (UnitOf(ms[0]) - 0xD800) * 0x400 + (UnitOf(ms[1]) - 0xDC00)), Meant(ms[2..]));
    } else if UnitOf(ms[0]) == 0 {
      EncodeZero();
      assert Meant(ms)[0] == NUL;
    } else {
      ZeroIsMeant(ms[1..]);
      NulBehind(Encode(UnitOf(ms[0])), Meant(ms[1..]));
    }
  }

  lemma EncodeZero()
    ensures Encode(0) == [NUL]
  {
  }

  lemma NulBehind(a: seq<byte>, b: seq<byte>)
    requires !NulFree(b)
    ensures !NulFree(a + b)
  {
    var i :| 0 <= i < |b| && b[i] == NUL;
    assert (a + b)[|a| + i] == NUL;
  }

  lemma {:induction false} ReadWithoutNul(ms: seq<Mark>)
    requires LooseMarks(ms)
    ensures NulFree(StringOf(ms))
  {
    hide Meaning;
    PlainTokens(ms);
    MeaningNulFree(TokensOf(ms));
  }

  lemma {:induction false} PlainTokens(ms: seq<Mark>)
    requires LooseMarks(ms)
    ensures forall i :: 0 <= i < |TokensOf(ms)| && TokensOf(ms)[i].Plain? ==> TokensOf(ms)[i].b != NUL
  {
    if ms != [] {
      PlainTokens(ms[1..]);
    }
  }

  /** A string is read as it is meant, if and only if it does not contain `\u0000`. */
  lemma StringAsMeant(ms: seq<Mark>)
    requires LooseMarks(ms) && Paired(ms)
    ensures StringOf(ms) == Meant(ms) <==> NoZero(ms)
  {
    hide Meant, StringOf, NoZero, Paired, LooseMark;
    if NoZero(ms) {
      ReadAsMeant(ms);
    } else {
      ZeroIsMeant(ms);
      ReadWithoutNul(ms);
    }
  }

  /** What is left when the units that are no characters are dropped: zeros, low surrogates that no high one precedes,
      and high surrogates that no low one follows, with the unit that follows instead. */
  function Cleaned(ms: seq<Mark>): seq<Mark>
    requires LooseMarks(ms)
    decreases |ms|
  {
    if ms == [] then []
    else if !ms[0].Code? then [ms[0]] + Cleaned(ms[1..])
    else if UnitOf(ms[0]) == 0 || IsLow(UnitOf(ms[0])) then Cleaned(ms[1..])
    else if !IsHigh(UnitOf(ms[0])) then [ms[0]] + Cleaned(ms[1..])
    else if |ms| == 1 || !ms[1].Code? then Cleaned(ms[1..])
    else if IsLow(UnitOf(ms[1])) then [ms[0], ms[1]] + Cleaned(ms[2..])
    else Cleaned(ms[2..])
  }

  lemma CleanedFront(m: Mark, rest: seq<Mark>)
    requires LooseMark(m) && LooseMarks(rest) && Paired(rest) && NoZero(rest)
    ensures LooseMarks([m] + rest)
    ensures !m.Code? || (UnitOf(m) != 0 && !IsLow(UnitOf(m)) && !IsHigh(UnitOf(m))) ==>
              Paired([m] + rest) && NoZero([m] + rest)
  {
    assert ([m] + rest)[1..] == rest;
  }

  lemma CleanedPair(m: Mark, n: Mark, rest: seq<Mark>)
    requires LooseMark(m) && LooseMark(n) && m.Code? && n.Code? && IsHigh(UnitOf(m)) && IsLow(UnitOf(n))
    requires LooseMarks(rest) && Paired(rest) && NoZero(rest)
    ensures LooseMarks([m, n] + rest) && Paired([m, n] + rest) && NoZero([m, n] + rest)
  {
    assert ([m, n] + rest)[2..] == rest;
  }

  lemma {:induction false} CleanedIsPaired(ms: seq<Mark>)
    requires LooseMarks(ms)
    ensures var c := Cleaned(ms); LooseMarks(c) && Paired(c) && NoZero(c)
    decreases |ms|
  {
    hide LooseMark, Paired, NoZero;
    if ms == [] {
      NoMarks();
    } else {
      var pair := |ms| > 1 && ms[0].Code? && IsHigh(UnitOf(ms[0])) && ms[1].Code?;
      var rest := ms[if pair then 2 else 1..];
      CleanedIsPaired(rest);
      CleanedFront(ms[0], Cleaned(rest));
      if pair && IsLow(UnitOf(ms[1])) {
        CleanedPair(ms[0], ms[1], Cleaned(rest));
      }
    }
  }

  lemma NoMarks()
    ensures Paired([]) && NoZero([])
  {
  }

  lemma {:induction false} CleanedReads(ms: seq<Mark>)
    requires LooseMarks(ms)
    ensures LooseMarks(Cleaned(ms)) && StringOf(ms) == StringOf(Cleaned(ms))
    decreases |ms|
  {
    hide TokensOf, TokenOf, LooseMark, Encode, Paired, NoZero;
    if ms != [] {
      TokensRest(ms);
      TokenIs(ms[0]);
      var pair := |ms| > 1 && ms[0].Code? && IsHigh(UnitOf(ms[0])) && ms[1].Code?;
      var rest := ms[if pair then 2 else 1..];
      var c := Cleaned(ms);
      CleanedReads(rest);
      CleanedIsPaired(ms);
      if |ms| > 1 {
        TokenIs(ms[1]);
      }
      if c != Cleaned(rest) {
        TokensRest(c);
        assert c[if pair then 2 else 1..] == Cleaned(rest);
      }
    }
  }

  /** Every string is read as it is meant without the units that are no characters. */
  lemma StringCleaned(ms: seq<Mark>)
    requires LooseMarks(ms)
    ensures LooseMarks(Cleaned(ms)) && Paired(Cleaned(ms)) && StringOf(ms) == Meant(Cleaned(ms))
  {
    hide Meant, StringOf, NoZero, Paired, LooseMark;
    CleanedIsPaired(ms);
    CleanedReads(ms);
    StringAsMeant(Cleaned(ms));
  }

  // ----- Values

  predicate AllPaired(p: Phrase)
    requires Loose(p)
    decreases p, 1
  {
    match p
    case Quoted(marks) => Paired(marks)
    case Listed(_, items) => ItemsPaired(items)
    case Braced(_, fields) => FieldsPaired(fields)
    case _ => true
  }

  predicate ItemsPaired(s: seq<Item>)
    requires LooseItems(s)
    decreases s, 0
  {
    s == [] || (assert LooseItem(s[0]); AllPaired(s[0].phrase) && ItemsPaired(s[1..]))
  }

  predicate FieldsPaired(s: seq<Field>)
    requires LooseFields(s)
    decreases s, 0
  {
    s == [] || (assert LooseField(s[0]) && LooseItem(s[0].item);
                Paired(s[0].key) && AllPaired(s[0].item.phrase) && FieldsPaired(s[1..]))
  }

  predicate ZeroFree(p: Phrase)
    requires Loose(p)
    decreases p, 1
  {
    match p
    case Quoted(marks) => NoZero(marks)
    case Listed(_, items) => ItemsZeroFree(items)
    case Braced(_, fields) => FieldsZeroFree(fields)
    case _ => true
  }

  predicate ItemsZeroFree(s: seq<Item>)
    requires LooseItems(s)
    decreases s, 0
  {
    s == [] || (assert LooseItem(s[0]); ZeroFree(s[0].phrase) && ItemsZeroFree(s[1..]))
  }

  predicate FieldsZeroFree(s: seq<Field>)
    requires LooseFields(s)
    decreases s, 0
  {
    s == [] || (assert LooseField(s[0]) && LooseItem(s[0].item);
                NoZero(s[0].key) && ZeroFree(s[0].item.phrase) && FieldsZeroFree(s[1..]))
  }

  function Intended(p: Phrase): Json
    requires Loose(p) && AllPaired(p)
    decreases p, 1
  {
    match p
    case NullWord => Null
    case FalseWord => False
    case TrueWord => True
    case Numeral(minus, zero, digits) => Number(NumberOf(minus, digits))
    case Quoted(marks) => String(Meant(marks))
    case Listed(_, items) => Array(IntendedItems(items))
    case Braced(_, fields) => Object(IntendedMembers(fields))
  }

  function IntendedItems(s: seq<Item>): (r: seq<Json>)
    requires LooseItems(s) && ItemsPaired(s)
    decreases s, 0
  {
    if s == [] then []
    else
      assert LooseItem(s[0]);
      [Intended(s[0].phrase)] + IntendedItems(s[1..])
  }

  function IntendedMembers(s: seq<Field>): (r: seq<Member>)
    requires LooseFields(s) && FieldsPaired(s)
    decreases s, 0
  {
    if s == [] then []
    else
      assert LooseField(s[0]) && LooseItem(s[0].item);
      [Member(Meant(s[0].key), Intended(s[0].item.phrase))] + IntendedMembers(s[1..])
  }

  lemma {:induction false} PhraseAsMeant(p: Phrase)
    requires Loose(p) && AllPaired(p)
    ensures ValueOf(p) == Intended(p) <==> ZeroFree(p)
    decreases p, 1
  {
    hide Meant, StringOf, NoZero, Paired, LooseMarks, IsInt32, NumberOf;
    match p
    case Quoted(marks) => StringAsMeant(marks);
    case Listed(_, items) => ItemsAsMeant(items);
    case Braced(_, fields) => FieldsAsMeant(fields);
    case _ =>
  }

  lemma {:induction false} ItemsAsMeant(s: seq<Item>)
    requires LooseItems(s) && ItemsPaired(s)
    ensures ValuesOf(s) == IntendedItems(s) <==> ItemsZeroFree(s)
    decreases s, 0
  {
    hide Loose, ValueOf, Intended, AllPaired, ZeroFree;
    if s != [] {
      assert LooseItem(s[0]);
      PhraseAsMeant(s[0].phrase);
      ItemsAsMeant(s[1..]);
      assert ValuesOf(s)[1..] == ValuesOf(s[1..]) && IntendedItems(s)[1..] == IntendedItems(s[1..]);
    }
  }

  lemma {:induction false} FieldsAsMeant(s: seq<Field>)
    requires LooseFields(s) && FieldsPaired(s)
    ensures MembersOf(s) == IntendedMembers(s) <==> FieldsZeroFree(s)
    decreases s, 0
  {
    hide Loose, ValueOf, Intended, AllPaired, ZeroFree, Meant, StringOf, NoZero, Paired, LooseMarks;
    if s != [] {
      assert LooseField(s[0]) && LooseItem(s[0].item);
      StringAsMeant(s[0].key);
      PhraseAsMeant(s[0].item.phrase);
      FieldsAsMeant(s[1..]);
      assert MembersOf(s)[1..] == MembersOf(s[1..]) && IntendedMembers(s)[1..] == IntendedMembers(s[1..]);
      assert MembersOf(s)[0] == MemberOf(s[0]);
    }
  }

  /** Every conforming text in which surrogates come in pairs is accepted, and it is read for the value that it is
      meant to have, if and only if no string in it contains `\u0000`, which the parser drops. */
  lemma ConformingText(i: Item)
    requires StrictItem(i)
    ensures Loose(i.phrase) && ReadText(SpellItem(i), true).Parsed?
    ensures AllPaired(i.phrase) ==>
              (ReadText(SpellItem(i), true).value == Intended(i.phrase) <==> ZeroFree(i.phrase))
  {
    hide ReadText, SpellItem, Loose, AllPaired, Intended, ZeroFree, ValueOf;
    StrictItemIsLoose(i);
    LoosePhrase(i);
    Accepted(i);
    TextSpelled(i);
    if AllPaired(i.phrase) {
      PhraseAsMeant(i.phrase);
    }
  }

  const ZERO_UNIT: Mark := Code([ZERO, ZERO, ZERO, ZERO])

  lemma ZeroUnitIs()
    ensures LooseMark(ZERO_UNIT) && StrictMark(ZERO_UNIT) && TokenOf(ZERO_UNIT) == Unit16(0)
    ensures SpellMark(ZERO_UNIT) == [BACKSLASH, LOWER_U, ZERO, ZERO, ZERO, ZERO]
  {
  }

  lemma ZeroUnitSpelled()
    ensures SpellMarks([ZERO_UNIT]) == SpellMark(ZERO_UNIT) && Utf8(SpellMarks([ZERO_UNIT]))
    ensures SpellQuoted([ZERO_UNIT]) == [QUOTE, BACKSLASH, LOWER_U, ZERO, ZERO, ZERO, ZERO, QUOTE]
  {
    hide LooseMark, StrictMark, SpellMark, TokenOf;
    ZeroUnitIs();
    var ms, s := [ZERO_UNIT], SpellMark(ZERO_UNIT);
    assert ms[1..] == [] && SpellMarks(ms) == s + [] == s;
    AsciiRunInFront(s, []);
    assert [QUOTE] + (s + [QUOTE]) == [QUOTE, BACKSLASH, LOWER_U, ZERO, ZERO, ZERO, ZERO, QUOTE];
  }

  lemma ZeroUnitRead()
    ensures LooseMarks([ZERO_UNIT]) && StringOf([ZERO_UNIT]) == []
  {
    hide LooseMark, TokenOf;
    ZeroUnitIs();
    assert [ZERO_UNIT][1..] == [] && TokensOf([ZERO_UNIT]) == [Unit16(0)];
    assert [Unit16(0)][1..] == [] && Meaning([]) == [];
  }

  lemma ZeroUnitAlone()
    ensures Loose(Quoted([ZERO_UNIT])) && Strict(Quoted([ZERO_UNIT])) && StringOf([ZERO_UNIT]) == []
    ensures Spell(Quoted([ZERO_UNIT])) == [QUOTE, BACKSLASH, LOWER_U, ZERO, ZERO, ZERO, ZERO, QUOTE]
  {
    hide LooseMark, StrictMark, SpellMark, SpellMarks, SpellQuoted, TokenOf, StringOf, Utf8;
    ZeroUnitIs();
    ZeroUnitSpelled();
    ZeroUnitRead();
    assert [ZERO_UNIT][0] == ZERO_UNIT;
  }

  /** `"\u0000"` conforms, and is read as an empty string. */
  lemma ZeroIsDropped()
    ensures var t := [QUOTE, BACKSLASH, LOWER_U, ZERO, ZERO, ZERO, ZERO, QUOTE];
            ReadText(t, true) == Parsed(String([]), 8) && Conforms(t)
  {
    hide Spell, SpellItem, LooseItem, StrictItem, ReadText, StringOf, Strict, Loose;
    var p := Quoted([ZERO_UNIT]);
    ZeroUnitAlone();
    AloneIs(p);
    AloneStrict(p);
    TextSpelled(Alone(p));
  }
}
