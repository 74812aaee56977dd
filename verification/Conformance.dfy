/**
  Which texts are accepted, and which of them conform to RFC 8259.
 */
module Conformance {
  import opened Bytes
  import opened Literals
  import opened Values
  import opened Grammar
  import opened RoundTrip
  import opened Syntax
  import opened Derivations
  import opened SyntaxLaws

  // ----- What is read is spelled

  lemma {:induction false} SkippedBlanks(t: seq<byte>, p: nat)
    requires p <= |t|
    ensures Blanks(t[p..Skip(t, p)])
    decreases |t| - p
  {
    if IsBlank(At(t, p)) {
      SkippedBlanks(t, p + 1);
      var s, r := t[p..Skip(t, p)], t[p + 1..Skip(t, p + 1)];
      forall i | 0 <= i < |s| ensures IsBlank(s[i]) {
        assert i > 0 ==> s[i] == r[i - 1];
      }
    }
  }

  lemma {:induction false} PhraseDerived(t: seq<byte>, p: nat)
    requires p <= |t| && NulFree(t) && ReadValue(t, p).Parsed?
    ensures var d, r := Derive(t, p), ReadValue(t, p);
            Loose(d) && ValueOf(d) == r.value && t[p..r.end] == Spell(d)
    decreases |t| - p, 1
  {
    if Has(t, p, NULL_TEXT) || Has(t, p, FALSE_TEXT) || Has(t, p, TRUE_TEXT) {
      WordDerived(t, p);
    } else if At(t, p) == QUOTE {
      QuotedDerived(t, p);
    } else if At(t, p) == MINUS || IsDigit(At(t, p)) {
      NumberDerived(t, p);
    } else if At(t, p) == LBRACKET {
      ListedDerived(t, p);
    } else {
      BracedDerived(t, p);
    }
  }

  lemma WordDerived(t: seq<byte>, p: nat)
    requires p <= |t| && (Has(t, p, NULL_TEXT) || Has(t, p, FALSE_TEXT) || Has(t, p, TRUE_TEXT))
    ensures ReadValue(t, p).Parsed?
    ensures var d, r := Derive(t, p), ReadValue(t, p);
            Loose(d) && ValueOf(d) == r.value && t[p..r.end] == Spell(d)
  {
  }

  lemma QuotedDerived(t: seq<byte>, p: nat)
    requires p <= |t| && NulFree(t) && ReadValue(t, p).Parsed? && At(t, p) == QUOTE
    ensures var d, r := Derive(t, p), ReadValue(t, p);
            Loose(d) && ValueOf(d) == r.value && t[p..r.end] == Spell(d)
  {
    hide Has, ReadString, DeriveMarks, StringOf, LooseMarks, SpellQuoted, Lex;
    NoWord(t, p);
    StringDerived(t, p);
  }

  lemma NumberDerived(t: seq<byte>, p: nat)
    requires p <= |t| && ReadValue(t, p).Parsed? && (At(t, p) == MINUS || IsDigit(At(t, p)))
    ensures var d, r := Derive(t, p), ReadValue(t, p);
            Loose(d) && ValueOf(d) == r.value && t[p..r.end] == Spell(d)
  {
    hide Has, ReadNumber, DeriveNumeral, NumberOf, Spell;
    NoWord(t, p);
    NumeralDerived(t, p);
    assert DeriveNumeral(t, p).Numeral? by { IsNumeral(t, p); }
  }

  lemma IsNumeral(t: seq<byte>, p: nat)
    requires p <= |t|
    ensures DeriveNumeral(t, p).Numeral?
  {
  }

  lemma {:induction false} ListedDerived(t: seq<byte>, p: nat)
    requires p <= |t| && NulFree(t) && ReadValue(t, p).Parsed? && At(t, p) == LBRACKET
    ensures var d, r := Derive(t, p), ReadValue(t, p);
            Loose(d) && ValueOf(d) == r.value && t[p..r.end] == Spell(d)
    decreases |t| - p, 0
  {
    hide Has, Skip, ReadValue, ReadItems, Derive, DeriveItems, LooseItems, ValuesOf, SpellItems, Blanks;
    var q, e := Skip(t, p + 1), ReadValue(t, p).end;
    ArrayValue(t, p);
    NoItems();
    HasSlice(t, p, p + 1, e);
    assert t[p..p + 1] == [LBRACKET];
    if At(t, q) == RBRACKET {
      DeriveEmpty(t, p);
      SkippedBlanks(t, p + 1);
      HasSlice(t, p + 1, q, e);
      assert t[q..e] == [RBRACKET] && [] + [RBRACKET] == [RBRACKET];
      NoLooseItems();
    } else {
      DeriveFull(t, p);
      SkipStays(t, q);
      EntriesSkip(t, p + 1, q);
      ItemsDerived(t, p + 1);
      NoBlanks();
      assert [] + t[p + 1..e] == t[p + 1..e];
    }
  }

  lemma NoLooseItems()
    ensures LooseItems([]) && LooseFields([])
  {
  }

  lemma NoBlanks()
    ensures Blanks([])
  {
  }

  lemma {:induction false} BracedDerived(t: seq<byte>, p: nat)
    requires p <= |t| && NulFree(t) && ReadValue(t, p).Parsed? && At(t, p) == LBRACE
    ensures var d, r := Derive(t, p), ReadValue(t, p);
            Loose(d) && ValueOf(d) == r.value && t[p..r.end] == Spell(d)
    decreases |t| - p, 0
  {
    hide Has, Skip, ReadValue, ReadMembers, Derive, DeriveFields, LooseFields, MembersOf, SpellFields, Blanks;
    var q, e := Skip(t, p + 1), ReadValue(t, p).end;
    ObjectValue(t, p);
    NoItems();
    HasSlice(t, p, p + 1, e);
    assert t[p..p + 1] == [LBRACE];
    if At(t, q) == RBRACE {
      DeriveEmpty(t, p);
      SkippedBlanks(t, p + 1);
      HasSlice(t, p + 1, q, e);
      assert t[q..e] == [RBRACE] && [] + [RBRACE] == [RBRACE];
      NoLooseItems();
    } else {
      DeriveFull(t, p);
      SkipStays(t, q);
      EntriesSkip(t, p + 1, q);
      FieldsDerived(t, p + 1);
      NoBlanks();
      assert [] + t[p + 1..e] == t[p + 1..e];
    }
  }

  /** A value with the blanks around it, from `p` to `n`. */
  lemma {:induction false} ItemDerived(t: seq<byte>, p: nat)
    requires p <= |t| && NulFree(t) && ReadValue(t, Skip(t, p)).Parsed?
    ensures var q := Skip(t, p); var r := ReadValue(t, q); var n := Skip(t, r.end);
            var i := Item(t[p..q], Derive(t, q), t[r.end..n]);
            LooseItem(i) && ValueOf(i.phrase) == r.value && t[p..n] == SpellItem(i)
    decreases |t| - p, 2
  {
    hide Skip, ReadValue, Derive, Loose, ValueOf, Spell, Blanks;
    var q := Skip(t, p);
    var e := ReadValue(t, q).end;
    PhraseDerived(t, q);
    SkippedBlanks(t, p);
    SkippedBlanks(t, e);
    HasSlice(t, p, q, Skip(t, e));
    HasSlice(t, q, e, Skip(t, e));
  }

  /** What has been read of an array: the first entry, and the others if there is a comma. */
  lemma ItemsParsed(t: seq<byte>, p: nat)
    requires p <= |t| && ReadItems(t, p).Parsed?
    ensures ReadValue(t, Skip(t, p)).Parsed?
    ensures var r, v := ReadItems(t, p), ReadValue(t, Skip(t, p)); var n := Skip(t, v.end);
            && n < |t| && t[n] in {COMMA, RBRACKET}
            && (t[n] == COMMA ==>
                  ReadItems(t, n + 1).Parsed? && r.value == [v.value] + ReadItems(t, n + 1).value
                  && r.end == ReadItems(t, n + 1).end)
            && (t[n] == RBRACKET ==> r == Parsed([v.value], n + 1))
  {
    hide ReadValue, Skip;
  }

  lemma {:induction false} ItemsDerived(t: seq<byte>, p: nat)
    requires p <= |t| && NulFree(t) && ReadItems(t, p).Parsed?
    ensures var s, r := DeriveItems(t, p), ReadItems(t, p);
            s != [] && LooseItems(s) && ValuesOf(s) == r.value && t[p..r.end] == SpellItems(s) + [RBRACKET]
    decreases |t| - p, 3
  {
    hide Skip, ReadValue, ReadItems, Derive, DeriveItems, Loose, LooseItem, LooseItems, ValueOf, ValuesOf, Spell,
      SpellItem, SpellItems;
    ItemsParsed(t, p);
    DeriveItemsStep(t, p);
    ItemDerived(t, p);
    var s, e := DeriveItems(t, p), ReadItems(t, p).end;
    var n := Skip(t, ReadValue(t, Skip(t, p)).end);
    NoItems();
    NoLooseItems();
    if At(t, n) == COMMA {
      ItemsDerived(t, n + 1);
      assert s[1..] == DeriveItems(t, n + 1);
      Entries(s);
      MoreSlice(t, p, n, e, SpellItem(s[0]), SpellItems(s[1..]), RBRACKET);
    } else {
      assert s[1..] == [];
      Entries(s);
      LastSlice(t, p, n, RBRACKET);
    }
  }

  lemma MoreSlice(t: seq<byte>, p: nat, n: nat, e: nat, first: seq<byte>, rest: seq<byte>, close: byte)
    requires p <= n < e <= |t| && t[p..n] == first && t[n] == COMMA && t[n + 1..e] == rest + [close]
    ensures t[p..e] == (first + ([COMMA] + rest)) + [close]
  {
    HasSlice(t, p, n, e);
    HasSlice(t, n, n + 1, e);
    assert t[n..n + 1] == [COMMA];
    assert first + ([COMMA] + (rest + [close])) == (first + ([COMMA] + rest)) + [close];
  }

  lemma LastSlice(t: seq<byte>, p: nat, n: nat, close: byte)
    requires p <= n < |t| && t[n] == close
    ensures t[p..n + 1] == t[p..n] + [close]
  {
    HasSlice(t, p, n, n + 1);
    assert t[n..n + 1] == [close];
  }

  lemma {:induction false} FieldDerived(t: seq<byte>, p: nat)
    requires p <= |t| && NulFree(t) && ReadMember(t, p).Parsed?
    ensures var f, r := DeriveField(t, p), ReadMember(t, p);
            LooseField(f) && MemberOf(f) == r.value && t[p..r.end] == SpellField(f)
    decreases |t| - p, 3
  {
    hide Skip, ReadValue, ReadString, Derive, DeriveMarks, Loose, LooseMarks, ValueOf, StringOf, Spell, SpellItem,
      SpellQuoted, Blanks;
    var q := Skip(t, p);
    var k := ReadString(t, q).end;
    var c := Skip(t, k);
    var n := ReadMember(t, p).end;
    ItemDerived(t, c + 1);
    StringDerived(t, q);
    SkippedBlanks(t, p);
    SkippedBlanks(t, k);
    HasSlice(t, p, q, n);
    HasSlice(t, q, k, n);
    HasSlice(t, k, c, n);
    HasSlice(t, c, c + 1, n);
    assert t[c..c + 1] == [COLON];
  }

  lemma {:induction false} FieldsDerived(t: seq<byte>, p: nat)
    requires p <= |t| && NulFree(t) && ReadMembers(t, p).Parsed?
    ensures var s, r := DeriveFields(t, p), ReadMembers(t, p);
            s != [] && LooseFields(s) && MembersOf(s) == r.value && t[p..r.end] == SpellFields(s) + [RBRACE]
    decreases |t| - p, 4
  {
    hide ReadMember, DeriveField, DeriveFields, LooseField, LooseFields, MemberOf, MembersOf, SpellField, SpellFields;
    DeriveFieldsStep(t, p);
    FieldDerived(t, p);
    var s, e := DeriveFields(t, p), ReadMembers(t, p).end;
    var n := ReadMember(t, p).end;
    NoItems();
    NoLooseItems();
    if At(t, n) == COMMA {
      FieldsDerived(t, n + 1);
      assert s[1..] == DeriveFields(t, n + 1);
      FieldEntries(s);
      MoreSlice(t, p, n, e, SpellField(s[0]), SpellFields(s[1..]), RBRACE);
    } else {
      assert s[1..] == [];
      FieldEntries(s);
      LastSlice(t, p, n, RBRACE);
    }
  }

  /** Every text that is accepted as a whole is made up according to the grammar, and stands for the value read. */
  lemma TextDerived(t: seq<byte>)
    requires NulFree(t) && ReadText(t, true).Parsed?
    ensures var i := DeriveText(t);
            LooseItem(i) && SpellItem(i) == t && ValueOf(i.phrase) == ReadText(t, true).value
  {
    hide Skip, ReadValue, Derive, Loose, ValueOf, Spell, Blanks;
    ItemDerived(t, 0);
    var q := Skip(t, 0);
    var e := ReadValue(t, q).end;
    assert t[0..q] == t[..q] && t[e..|t|] == t[e..] && t[0..|t|] == t;
  }

  // ----- Exactly the texts of the grammar

  /** A text is accepted as a whole if and only if it is made up according to the grammar. */
  lemma AcceptedExactly(t: seq<byte>)
    requires NulFree(t)
    ensures ReadText(t, true).Parsed? <==> exists i :: LooseItem(i) && SpellItem(i) == t
  {
    hide LooseItem, SpellItem, ReadText;
    if ReadText(t, true).Parsed? {
      TextDerived(t);
    }
    if i :| LooseItem(i) && SpellItem(i) == t {
      Accepted(i);
    }
  }

  lemma Accepted(i: Item)
    requires LooseItem(i)
    ensures ReadText(SpellItem(i), true).Parsed?
  {
    TextSpelled(i);
  }

  /** No text can be made up in two ways. */
  lemma Unambiguous(i: Item, j: Item)
    requires LooseItem(i) && LooseItem(j) && SpellItem(i) == SpellItem(j)
    ensures i == j
  {
    hide ReadText, SpellItem, LooseItem;
    Accepted(i);
    Accepted(j);
    TextSpelled(i);
    TextSpelled(j);
  }
}
