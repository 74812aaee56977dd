/**
  The parser takes exactly the texts of the grammar, each for what it stands
  for, and no text can be made up in two ways.
 */
module SyntaxLaws {
  import opened Bytes
  import opened Literals
  import opened Values
  import opened Grammar
  import opened RoundTrip
  import opened Syntax
  import opened Derivations

  // ----- What is spelled is read

  lemma SpellStarts(d: Phrase)
    requires Loose(d)
    ensures |Spell(d)| >= 1 && StartsValue(Spell(d)[0])
  {
    hide IsInt32, NumberOf;
  }

  /** What can stand behind a value and the blanks behind it. */
  predicate Delimits(c: byte) { c in {NUL, COMMA, RBRACKET, RBRACE} }

  /** The blanks behind a value. */
  lemma BlanksBehind(t: seq<byte>, e: nat, after: seq<byte>)
    requires Has(t, e, after) && Blanks(after) && Delimits(At(t, e + |after|))
    ensures EndsNumber(At(t, e)) && Skip(t, e) == e + |after|
  {
    hide Has;
    SkipOver(t, e, after);
    if after != [] {
      HasByte(t, e, after, 0);
    }
  }

  /** A value that starts behind some blanks. */
  lemma BlanksBefore(t: seq<byte>, p: nat, before: seq<byte>, d: Phrase)
    requires Has(t, p, before) && Blanks(before) && Loose(d) && Has(t, p + |before|, Spell(d))
    ensures Skip(t, p) == p + |before| && StartsValue(At(t, p + |before|))
  {
    hide Has, Spell, Skip, Loose;
    SpellStarts(d);
    HasByte(t, p + |before|, Spell(d), 0);
    SkipOver(t, p, before);
  }

  /** An item at `p` is read, and read off: the blanks before it, its phrase, and the blanks behind it. */
  ghost predicate ItemRead(t: seq<byte>, p: nat, i: Item)
    requires Loose(i.phrase)
  {
    var q := p + |i.before|;
    var e := q + |Spell(i.phrase)|;
    var n := p + |SpellItem(i)|;
    && p <= q <= e <= n <= |t| && Skip(t, p) == q && StartsValue(At(t, q)) && Skip(t, e) == n
    && ReadValue(t, q) == Parsed(ValueOf(i.phrase), e)
    && t[p..q] == i.before && Derive(t, q) == i.phrase && t[e..n] == i.after
  }

  lemma {:induction false} ItemSpelled(t: seq<byte>, p: nat, i: Item)
    requires LooseItem(i) && Has(t, p, SpellItem(i)) && Delimits(At(t, p + |SpellItem(i)|))
    ensures ItemRead(t, p, i)
    decreases i, 2
  {
    hide Has, Skip, Spell, Loose, ReadValue, ValueOf, Derive, StartsValue, Delimits, EndsNumber;
    var s := Spell(i.phrase);
    var q := p + |i.before|;
    HasParts(t, p, i.before, s + i.after);
    HasParts(t, q, s, i.after);
    HasAll(t, p, i.before);
    HasAll(t, q + |s|, i.after);
    BlanksBehind(t, q + |s|, i.after);
    BlanksBefore(t, p, i.before, i.phrase);
    PhraseSpelled(t, q, i.phrase);
  }

  /** One step of reading the entries of an array. */
  lemma ItemsGrow(t: seq<byte>, p: nat, i: Item)
    requires Loose(i.phrase) && ItemRead(t, p, i)
    ensures p + |SpellItem(i)| <= |t| && StartsValue(At(t, Skip(t, p)))
    ensures var n := p + |SpellItem(i)|; var v := ValueOf(i.phrase);
            && (At(t, n) == RBRACKET ==> ReadItems(t, p) == Parsed([v], n + 1))
            && (At(t, n) == COMMA && ReadItems(t, n + 1).Parsed? ==>
                  ReadItems(t, p) == Parsed([v] + ReadItems(t, n + 1).value, ReadItems(t, n + 1).end))
  {
    hide ReadItems, ReadValue, Skip, Derive, Spell, SpellItem, ValueOf, Loose, StartsValue;
    ItemsStep(t, p, ValueOf(i.phrase), p + |i.before| + |Spell(i.phrase)|);
  }

  /** And of reading them off. */
  lemma DeriveItemsStep(t: seq<byte>, p: nat)
    requires p <= |t| && ReadItems(t, p).Parsed?
    ensures ReadValue(t, Skip(t, p)).Parsed?
    ensures var n := Skip(t, ReadValue(t, Skip(t, p)).end); At(t, n) == COMMA ==> ReadItems(t, n + 1).Parsed?
    ensures var q := Skip(t, p); var e := ReadValue(t, q).end; var n := Skip(t, e);
            DeriveItems(t, p)
            == [Item(t[p..q], Derive(t, q), t[e..n])] + if At(t, n) == COMMA then DeriveItems(t, n + 1) else []
  {
    hide ReadValue, Skip, Derive;
  }

  lemma ItemIs(t: seq<byte>, p: nat, i: Item)
    requires Loose(i.phrase) && ItemRead(t, p, i)
    ensures p <= |t| && ReadValue(t, Skip(t, p)).Parsed?
    ensures var q := Skip(t, p); var e := ReadValue(t, q).end; var n := Skip(t, e);
            n == p + |SpellItem(i)| && Item(t[p..q], Derive(t, q), t[e..n]) == i
  {
    hide ReadValue, Skip, Derive, Spell, SpellItem, ValueOf, Loose, StartsValue;
  }

  lemma Entries(s: seq<Item>)
    requires s != [] && (LooseItems(s) || (LooseItem(s[0]) && LooseItems(s[1..])))
    ensures LooseItems(s) && LooseItem(s[0]) && Loose(s[0].phrase) && LooseItems(s[1..])
    ensures |s| == 1 ==> SpellItems(s) == SpellItem(s[0]) && ValuesOf(s) == [ValueOf(s[0].phrase)]
    ensures |s| > 1 ==> SpellItems(s) == SpellItem(s[0]) + ([COMMA] + SpellItems(s[1..]))
    ensures |s| > 1 ==> ValuesOf(s) == [ValueOf(s[0].phrase)] + ValuesOf(s[1..])
  {
    assert LooseItem(s[0]);
  }

  lemma {:induction false} ItemsSpelled(t: seq<byte>, p: nat, s: seq<Item>)
    requires s != [] && LooseItems(s) && Has(t, p, SpellItems(s)) && At(t, p + |SpellItems(s)|) == RBRACKET
    ensures StartsValue(At(t, Skip(t, p)))
    ensures ReadItems(t, p) == Parsed(ValuesOf(s), p + |SpellItems(s)| + 1) && DeriveItems(t, p) == s
    decreases s, 0
  {
    hide Has, Skip, SpellItem, SpellItems, Loose, ReadValue, ReadItems, ValueOf, ValuesOf, Derive, DeriveItems,
      StartsValue, ItemRead;
    var i := s[0];
    var n := p + |SpellItem(i)|;
    Entries(s);
    if |s| == 1 {
      assert s == [i];
      ItemSpelled(t, p, i);
      ItemsGrow(t, p, i);
      ItemIs(t, p, i);
      DeriveItemsStep(t, p);
    } else {
      HasParts(t, p, SpellItem(i), [COMMA] + SpellItems(s[1..]));
      HasParts(t, n, [COMMA], SpellItems(s[1..]));
      HasByte(t, n, [COMMA], 0);
      ItemSpelled(t, p, i);
      ItemsSpelled(t, n + 1, s[1..]);
      ItemsGrow(t, p, i);
      ItemIs(t, p, i);
      DeriveItemsStep(t, p);
      assert s == [i] + s[1..];
    }
  }

  lemma FieldLayout(t: seq<byte>, p: nat, f: Field)
    requires Has(t, p, SpellField(f))
    ensures var q := p + |f.before|; var k := q + |SpellQuoted(f.key)|; var c := k + |f.mid|;
            && c < |t| && Has(t, p, f.before) && Has(t, q, SpellQuoted(f.key)) && Has(t, k, f.mid)
            && t[c] == COLON && Has(t, c + 1, SpellItem(f.item))
            && c + 1 + |SpellItem(f.item)| == p + |SpellField(f)|
  {
    hide Has, SpellQuoted, SpellItem;
    var key := SpellQuoted(f.key);
    var q := p + |f.before|;
    var c := q + |key| + |f.mid|;
    HasParts(t, p, f.before, key + (f.mid + ([COLON] + SpellItem(f.item))));
    HasParts(t, q, key, f.mid + ([COLON] + SpellItem(f.item)));
    HasParts(t, q + |key|, f.mid, [COLON] + SpellItem(f.item));
    HasParts(t, c, [COLON], SpellItem(f.item));
    HasByte(t, c, [COLON], 0);
  }

  /** The key of an entry, up to the colon. */
  lemma KeySpelled(t: seq<byte>, p: nat, f: Field)
    requires LooseField(f) && Has(t, p, f.before) && Has(t, p + |f.before|, SpellQuoted(f.key))
    requires var k := p + |f.before| + |SpellQuoted(f.key)|; Has(t, k, f.mid) && At(t, k + |f.mid|) == COLON
    ensures var q := p + |f.before|; var k := q + |SpellQuoted(f.key)|; var c := k + |f.mid|;
            && c <= |t| && Skip(t, p) == q && t[p..q] == f.before && Skip(t, k) == c && t[k..c] == f.mid
            && At(t, q) == QUOTE && ReadString(t, q) == Parsed(StringOf(f.key), k)
            && Lex(t, q + 1).Closed? && DeriveMarks(t, q + 1) == f.key
  {
    hide Has, Skip, SpellQuoted, LooseMarks, LooseItem, ReadString, DeriveMarks, StringOf, Lex;
    var q := p + |f.before|;
    var k := q + |SpellQuoted(f.key)|;
    HasAll(t, p, f.before);
    HasAll(t, k, f.mid);
    StringSpelled(t, q, f.key);
    SkipOver(t, p, f.before);
    SkipOver(t, k, f.mid);
  }

  /** An entry of an object from its parts. */
  lemma FieldStep(t: seq<byte>, p: nat, q: nat, k: nat, c: nat, f: Field)
    requires LooseField(f) && LooseItem(f.item) && Loose(f.item.phrase) && p <= q <= k <= c < |t|
    requires Skip(t, p) == q && t[p..q] == f.before && ReadString(t, q) == Parsed(StringOf(f.key), k)
    requires Skip(t, k) == c && t[k..c] == f.mid && At(t, c) == COLON
    requires At(t, q) == QUOTE && Lex(t, q + 1).Closed? && DeriveMarks(t, q + 1) == f.key
    requires ItemRead(t, c + 1, f.item)
    ensures ReadMember(t, p) == Parsed(MemberOf(f), c + 1 + |SpellItem(f.item)|) && DeriveField(t, p) == f
  {
    hide ReadString, ReadValue, Skip, Derive, DeriveMarks, StringOf, ValueOf, Loose, LooseMarks, Lex, Spell, SpellItem;
  }

  lemma {:induction false} FieldSpelled(t: seq<byte>, p: nat, f: Field)
    requires LooseField(f) && Has(t, p, SpellField(f)) && Delimits(At(t, p + |SpellField(f)|))
    ensures p + |SpellField(f)| <= |t| && At(t, Skip(t, p)) == QUOTE
    ensures ReadMember(t, p) == Parsed(MemberOf(f), p + |SpellField(f)|) && DeriveField(t, p) == f
    decreases f, 3
  {
    hide Has, Skip, SpellField, SpellItem, SpellQuoted, Loose, LooseMarks, ReadMember, DeriveField, DeriveMarks,
      StringOf, MemberOf, Delimits, ItemRead, Lex;
    var q := p + |f.before|;
    var k := q + |SpellQuoted(f.key)|;
    var c := k + |f.mid|;
    FieldLayout(t, p, f);
    assert LooseItem(f.item) && Loose(f.item.phrase);
    ItemSpelled(t, c + 1, f.item);
    KeySpelled(t, p, f);
    FieldStep(t, p, q, k, c, f);
    SpelledIn(t, c + 1, SpellItem(f.item));
  }

  lemma SpelledIn(t: seq<byte>, p: nat, s: seq<byte>)
    requires Has(t, p, s)
    ensures p + |s| <= |t|
  {
  }

  lemma DeriveFieldsStep(t: seq<byte>, p: nat)
    requires p <= |t| && ReadMembers(t, p).Parsed?
    ensures ReadMember(t, p).Parsed?
    ensures var n := ReadMember(t, p).end; At(t, n) == COMMA ==> ReadMembers(t, n + 1).Parsed?
    ensures var n := ReadMember(t, p).end;
            DeriveFields(t, p) == [DeriveField(t, p)] + if At(t, n) == COMMA then DeriveFields(t, n + 1) else []
  {
    hide ReadMember, DeriveField;
  }

  lemma FieldEntries(s: seq<Field>)
    requires s != [] && (LooseFields(s) || (LooseField(s[0]) && LooseFields(s[1..])))
    ensures LooseFields(s) && LooseField(s[0]) && LooseFields(s[1..])
    ensures |s| == 1 ==> SpellFields(s) == SpellField(s[0]) && MembersOf(s) == [MemberOf(s[0])]
    ensures |s| > 1 ==> SpellFields(s) == SpellField(s[0]) + ([COMMA] + SpellFields(s[1..]))
    ensures |s| > 1 ==> MembersOf(s) == [MemberOf(s[0])] + MembersOf(s[1..])
  {
    assert LooseField(s[0]);
  }

  lemma {:induction false} FieldsSpelled(t: seq<byte>, p: nat, s: seq<Field>)
    requires s != [] && LooseFields(s) && Has(t, p, SpellFields(s)) && At(t, p + |SpellFields(s)|) == RBRACE
    ensures At(t, Skip(t, p)) == QUOTE
    ensures ReadMembers(t, p) == Parsed(MembersOf(s), p + |SpellFields(s)| + 1) && DeriveFields(t, p) == s
    decreases s, 0
  {
    hide Has, Skip, SpellField, SpellFields, LooseField, ReadMember, ReadMembers, MemberOf, MembersOf, DeriveField,
      DeriveFields;
    var f := s[0];
    var n := p + |SpellField(f)|;
    FieldEntries(s);
    if |s| == 1 {
      FieldSpelled(t, p, f);
      MembersStep(t, p, MemberOf(f), n);
      DeriveFieldsStep(t, p);
      assert s == [f];
    } else {
      HasParts(t, p, SpellField(f), [COMMA] + SpellFields(s[1..]));
      HasParts(t, n, [COMMA], SpellFields(s[1..]));
      HasByte(t, n, [COMMA], 0);
      FieldSpelled(t, p, f);
      FieldsSpelled(t, n + 1, s[1..]);
      MembersStep(t, p, MemberOf(f), n);
      DeriveFieldsStep(t, p);
      assert s == [f] + s[1..];
    }
  }

  /** A phrase inside any text that does not continue a number is read for its value, up to its end, and its
      make-up is read off. */
  lemma {:induction false} PhraseSpelled(t: seq<byte>, p: nat, d: Phrase)
    requires Loose(d) && Has(t, p, Spell(d)) && EndsNumber(At(t, p + |Spell(d)|))
    ensures ReadValue(t, p) == Parsed(ValueOf(d), p + |Spell(d)|) && Derive(t, p) == d
    decreases d, 1
  {
    match d
    case NullWord => WordSpelled(t, p, d);
    case FalseWord => WordSpelled(t, p, d);
    case TrueWord => WordSpelled(t, p, d);
    case Numeral(_, _, _) => NumberSpelled(t, p, d);
    case Quoted(marks) => QuotedSpelled(t, p, marks);
    case Listed(lead, items) => ListedSpelled(t, p, lead, items);
    case Braced(lead, fields) => BracedSpelled(t, p, lead, fields);
  }

  lemma WordSpelled(t: seq<byte>, p: nat, d: Phrase)
    requires d.NullWord? || d.FalseWord? || d.TrueWord?
    requires Has(t, p, Spell(d))
    ensures ReadValue(t, p) == Parsed(ValueOf(d), p + |Spell(d)|) && Derive(t, p) == d
  {
    HasByte(t, p, Spell(d), 0);
    NoWord(t, p);
  }

  lemma NumberSpelled(t: seq<byte>, p: nat, d: Phrase)
    requires d.Numeral? && Loose(d) && Has(t, p, Spell(d)) && EndsNumber(At(t, p + |Spell(d)|))
    ensures ReadValue(t, p) == Parsed(ValueOf(d), p + |Spell(d)|) && Derive(t, p) == d
  {
    hide Has, ReadNumber, DeriveNumeral, NumberOf, Spell;
    NumeralSpelled(t, p, d);
    NoWord(t, p);
  }

  lemma QuotedSpelled(t: seq<byte>, p: nat, marks: seq<Mark>)
    requires LooseMarks(marks) && Has(t, p, SpellQuoted(marks))
    ensures ReadValue(t, p) == Parsed(String(StringOf(marks)), p + |SpellQuoted(marks)|)
    ensures Derive(t, p) == Quoted(marks)
  {
    hide Has, ReadString, DeriveMarks, StringOf, LooseMarks, SpellQuoted;
    StringSpelled(t, p, marks);
    NoWord(t, p);
  }

  lemma {:induction false} ListedSpelled(t: seq<byte>, p: nat, lead: seq<byte>, items: seq<Item>)
    requires Loose(Listed(lead, items)) && Has(t, p, Spell(Listed(lead, items)))
    ensures ReadValue(t, p) == Parsed(Array(ValuesOf(items)), p + |Spell(Listed(lead, items))|)
    ensures Derive(t, p) == Listed(lead, items)
    decreases items, 4
  {
    hide Has, Skip, Spell, ReadValue, ReadItems, SpellItems, LooseItems, ValuesOf, Derive, DeriveItems, StartsValue;
    ListedIs(lead, items);
    BetweenBrackets(t, p, lead, SpellItems(items), LBRACKET, RBRACKET);
    ArrayValue(t, p);
    if items == [] {
      NoItems();
      HasAll(t, p + 1, lead);
      SkipOver(t, p + 1, lead);
      DeriveEmpty(t, p);
    } else {
      ItemsSpelled(t, p + 1, items);
      SkipStays(t, Skip(t, p + 1));
      EntriesSkip(t, p + 1, Skip(t, p + 1));
      StartsNoClose(At(t, Skip(t, p + 1)));
      DeriveFull(t, p);
    }
  }

  lemma ListedIs(lead: seq<byte>, items: seq<Item>)
    ensures Spell(Listed(lead, items)) == [LBRACKET] + (lead + (SpellItems(items) + [RBRACKET]))
  {
  }

  lemma BracedIs(lead: seq<byte>, fields: seq<Field>)
    ensures Spell(Braced(lead, fields)) == [LBRACE] + (lead + (SpellFields(fields) + [RBRACE]))
  {
  }

  lemma BetweenBrackets(t: seq<byte>, p: nat, lead: seq<byte>, body: seq<byte>, open: byte, close: byte)
    requires Has(t, p, [open] + (lead + (body + [close])))
    ensures var e := p + 1 + |lead| + |body|;
            && e < |t| && At(t, p) == open && Has(t, p + 1, lead) && Has(t, p + 1 + |lead|, body) && At(t, e) == close
  {
    hide Has;
    var e := p + 1 + |lead| + |body|;
    HasParts(t, p, [open], lead + (body + [close]));
    HasParts(t, p + 1, lead, body + [close]);
    HasParts(t, p + 1 + |lead|, body, [close]);
    HasByte(t, p, [open], 0);
    HasByte(t, e, [close], 0);
  }

  lemma StartsNoClose(c: byte)
    requires StartsValue(c)
    ensures c != RBRACKET && c != RBRACE
  {
  }

  lemma NoItems()
    ensures SpellItems([]) == [] && ValuesOf([]) == [] && SpellFields([]) == [] && MembersOf([]) == []
  {
  }

  lemma DeriveEmpty(t: seq<byte>, p: nat)
    requires p <= |t| && ReadValue(t, p).Parsed?
    ensures At(t, p) == LBRACKET && At(t, Skip(t, p + 1)) == RBRACKET ==>
              Derive(t, p) == Listed(t[p + 1..Skip(t, p + 1)], [])
    ensures At(t, p) == LBRACE && At(t, Skip(t, p + 1)) == RBRACE ==>
              Derive(t, p) == Braced(t[p + 1..Skip(t, p + 1)], [])
  {
    hide Has, Skip, ReadValue;
    NoWord(t, p);
  }

  lemma DeriveFull(t: seq<byte>, p: nat)
    requires p < |t| && ReadValue(t, p).Parsed?
    ensures At(t, p) == LBRACKET && At(t, Skip(t, p + 1)) != RBRACKET ==>
              ReadItems(t, p + 1).Parsed? && Derive(t, p) == Listed([], DeriveItems(t, p + 1))
    ensures At(t, p) == LBRACE && At(t, Skip(t, p + 1)) != RBRACE ==>
              ReadMembers(t, p + 1).Parsed? && Derive(t, p) == Braced([], DeriveFields(t, p + 1))
  {
    hide Has, Skip, ReadItems, ReadMembers, DeriveItems, DeriveFields;
    NoWord(t, p);
    SkipStays(t, Skip(t, p + 1));
    EntriesSkip(t, p + 1, Skip(t, p + 1));
  }

  lemma {:induction false} BracedSpelled(t: seq<byte>, p: nat, lead: seq<byte>, fields: seq<Field>)
    requires Loose(Braced(lead, fields)) && Has(t, p, Spell(Braced(lead, fields)))
    ensures ReadValue(t, p) == Parsed(Object(MembersOf(fields)), p + |Spell(Braced(lead, fields))|)
    ensures Derive(t, p) == Braced(lead, fields)
    decreases fields, 4
  {
    hide Has, Skip, Spell, ReadValue, ReadMembers, SpellFields, LooseFields, MembersOf, Derive, DeriveFields;
    BracedIs(lead, fields);
    BetweenBrackets(t, p, lead, SpellFields(fields), LBRACE, RBRACE);
    ObjectValue(t, p);
    if fields == [] {
      NoItems();
      HasAll(t, p + 1, lead);
      SkipOver(t, p + 1, lead);
      DeriveEmpty(t, p);
    } else {
      FieldsSpelled(t, p + 1, fields);
      SkipStays(t, Skip(t, p + 1));
      EntriesSkip(t, p + 1, Skip(t, p + 1));
      DeriveFull(t, p);
    }
  }

  lemma HasItself(t: seq<byte>)
    ensures Has(t, 0, t)
  {
    assert t[0..|t|] == t;
  }

  /** Every text of the grammar is accepted as a whole, for what it stands for, and its make-up is read off. */
  lemma TextSpelled(i: Item)
    requires LooseItem(i)
    ensures var t := SpellItem(i);
            ReadText(t, true) == Parsed(ValueOf(i.phrase), |t|) && DeriveText(t) == i
  {
    hide Has, Skip, Spell, Loose, ReadValue, ValueOf, Derive;
    var t := SpellItem(i);
    HasItself(t);
    ItemSpelled(t, 0, i);
    var q := |i.before|;
    assert t[0..q] == t[..q] && t[q + |Spell(i.phrase)|..|t|] == t[q + |Spell(i.phrase)|..];
  }

  /** Without the check for trailing bytes, a value is read up to its end, whatever follows. */
  lemma ValueInFront(t: seq<byte>, before: seq<byte>, d: Phrase)
    requires Blanks(before) && Loose(d) && Has(t, 0, before + Spell(d))
    requires EndsNumber(At(t, |before| + |Spell(d)|))
    ensures ReadText(t, false) == Parsed(ValueOf(d), |before| + |Spell(d)|)
  {
    hide Has, Skip, Spell, Loose, ReadValue, ValueOf, Derive, StartsValue, EndsNumber;
    HasParts(t, 0, before, Spell(d));
    BlanksBefore(t, 0, before, d);
    PhraseSpelled(t, |before|, d);
  }
}
