/**
  Where the parser reports an error: behind the longest part of the text that
  can still be continued to a text of the grammar, except that a misspelled
  word is reported where it starts.
 */
module ErrorPositions {
  import opened Bytes
  import opened Literals
  import opened Values
  import opened Grammar
  import opened RoundTrip
  import opened Syntax
  import opened Derivations
  import opened SyntaxLaws
  import opened Conformance

  /** Some text of the grammar starts with `s`. */
  ghost predicate Viable(s: seq<byte>) {
    exists i :: LooseItem(i) && s <= SpellItem(i)
  }

  // ----- What is in front of the error can be continued

  lemma Onward(t: seq<byte>, p: nat, q: nat, at: nat, a: seq<byte>, b: seq<byte>, c: seq<byte>)
    requires p <= q <= at <= |t| && t[p..q] == a && t[q..at] <= b
    ensures t[p..at] <= a + (b + c)
  {
    HasSlice(t, p, q, at);
    assert (a + (b + c))[|a|..][..at - q] == b[..at - q];
  }

  lemma Shorter(s: seq<byte>, a: seq<byte>, c: seq<byte>)
    requires s <= a
    ensures s <= a + c
  {
  }

  lemma NullIs()
    ensures Loose(NullWord) && LooseItem(Item([], NullWord, [])) && LooseMarks([])
  {
  }

  /** A value that fails, finished. */
  lemma {:induction false} ValueContinued(t: seq<byte>, p: nat) returns (d: Phrase)
    requires p <= |t| && NulFree(t) && ReadValue(t, p).Failed?
    ensures Loose(d) && t[p..ReadValue(t, p).at] <= Spell(d)
    decreases |t| - p, 1
  {
    hide Has, Skip, ReadItems, ReadMembers, LooseItems, LooseFields, SpellItems, SpellFields;
    NoWord(t, p);
    NoBlanks();
    var at, q := ReadValue(t, p).at, Skip(t, if p < |t| then p + 1 else p);
    if At(t, p) == LBRACKET {
      ArrayValue(t, p);
      SkipStays(t, q);
      EntriesSkip(t, p + 1, q);
      var s := ItemsContinued(t, p + 1);
      d := Listed([], s);
      assert t[p..p + 1] == [LBRACKET] && [] + (SpellItems(s) + [RBRACKET]) == SpellItems(s) + [RBRACKET];
      Onward(t, p, p + 1, at, [LBRACKET], SpellItems(s), [RBRACKET]);
    } else if At(t, p) == LBRACE {
      ObjectValue(t, p);
      SkipStays(t, q);
      EntriesSkip(t, p + 1, q);
      var s := FieldsContinued(t, p + 1);
      d := Braced([], s);
      assert t[p..p + 1] == [LBRACE] && [] + (SpellFields(s) + [RBRACE]) == SpellFields(s) + [RBRACE];
      Onward(t, p, p + 1, at, [LBRACE], SpellFields(s), [RBRACE]);
    } else {
      d := NullWord;
      assert at == p;
    }
  }

  /** The same behind some blanks. */
  lemma {:induction false} ItemContinued(t: seq<byte>, p: nat) returns (i: Item)
    requires p <= |t| && NulFree(t) && ReadValue(t, Skip(t, p)).Failed?
    ensures LooseItem(i) && t[p..ReadValue(t, Skip(t, p)).at] <= SpellItem(i)
    decreases |t| - p, 2
  {
    hide Skip, ReadValue, Loose, Spell, Blanks;
    var q := Skip(t, p);
    var d := ValueContinued(t, q);
    SkippedBlanks(t, p);
    NoBlanks();
    i := Item(t[p..q], d, []);
    Onward(t, p, q, ReadValue(t, q).at, t[p..q], Spell(d), []);
  }

  /** What the reader of entries does with the first one, and with what follows it. */
  lemma ItemsCases(t: seq<byte>, p: nat)
    requires p <= |t|
    ensures var r := ReadValue(t, Skip(t, p)); var s := ReadItems(t, p);
            && (r.Failed? ==> s == Failed(r.at)) && (r.Outside? ==> s == Outside)
            && (r.Parsed? ==>
                  var n := Skip(t, r.end);
                  if At(t, n) == COMMA then
                    var rest := ReadItems(t, n + 1);
                    && (rest.Failed? ==> s == Failed(rest.at)) && (rest.Outside? ==> s == Outside)
                    && (rest.Parsed? ==> s.Parsed?)
                  else if At(t, n) == RBRACKET then s.Parsed? else s == Failed(n))
  {
    hide ReadValue, Skip;
  }

  lemma {:induction false} ItemsContinued(t: seq<byte>, p: nat) returns (s: seq<Item>)
    requires p <= |t| && NulFree(t) && ReadItems(t, p).Failed?
    ensures s != [] && LooseItems(s) && t[p..ReadItems(t, p).at] <= SpellItems(s)
    decreases |t| - p, 3
  {
    hide Skip, ReadValue, ReadItems, Loose, LooseItem, LooseItems, Spell, SpellItem, SpellItems, Derive, ValueOf,
      ValuesOf;
    ItemsCases(t, p);
    NoLooseItems();
    var r, at := ReadValue(t, Skip(t, p)), ReadItems(t, p).at;
    if r.Failed? {
      var i := ItemContinued(t, p);
      s := [i];
      assert s[1..] == [];
      Entries(s);
    } else {
      ItemDerived(t, p);
      var n := Skip(t, r.end);
      var i := Item(t[p..Skip(t, p)], Derive(t, Skip(t, p)), t[r.end..n]);
      if At(t, n) == COMMA {
        var rest := ItemsContinued(t, n + 1);
        s := [i] + rest;
        assert s[1..] == rest;
        Entries(s);
        OneByte(t, n);
        Onward(t, n, n + 1, at, [COMMA], SpellItems(rest), []);
        assert [COMMA] + (SpellItems(rest) + []) == [COMMA] + SpellItems(rest);
        Onward(t, p, n, at, SpellItem(i), [COMMA] + SpellItems(rest), []);
        assert SpellItem(i) + (([COMMA] + SpellItems(rest)) + []) == SpellItem(i) + ([COMMA] + SpellItems(rest));
      } else {
        s := [i];
        assert s[1..] == [];
        Entries(s);
      }
    }
  }

  lemma OneByte(t: seq<byte>, p: nat)
    requires p <= |t| && At(t, p) != NUL
    ensures p < |t| && t[p..p + 1] == [At(t, p)]
  {
  }

  lemma StringClosed(t: seq<byte>, p: nat)
    requires p <= |t| && ReadString(t, p).Parsed?
    ensures At(t, p) == QUOTE && Lex(t, p + 1).Closed?
  {
  }

  /** An entry of an object that fails, finished. */
  lemma {:induction false} FieldContinued(t: seq<byte>, p: nat) returns (f: Field)
    requires p <= |t| && NulFree(t) && ReadMember(t, p).Failed?
    ensures LooseField(f) && t[p..ReadMember(t, p).at] <= SpellField(f)
    decreases |t| - p, 3
  {
    hide Skip, ReadValue, ReadString, Loose, LooseItem, LooseMarks, Spell, SpellItem, SpellQuoted, Derive,
      DeriveMarks, Blanks, StringOf;
    var q, at := Skip(t, p), ReadMember(t, p).at;
    var none := Item([], NullWord, []);
    SkippedBlanks(t, p);
    NullIs();
    NoBlanks();
    if ReadString(t, q).Failed? {
      f := Field(t[p..q], [], [], none);
      Shorter(t[p..at], t[p..q], SpellQuoted([]) + ([] + ([COLON] + SpellItem(none))));
    } else {
      var k := ReadString(t, q).end;
      var c := Skip(t, k);
      StringClosed(t, q);
      StringDerived(t, q);
      SkippedBlanks(t, k);
      var key := DeriveMarks(t, q + 1);
      var head, mid := t[p..q], t[k..c];
      if At(t, c) != COLON {
        f := Field(head, key, mid, none);
        Onward(t, q, k, at, SpellQuoted(key), mid, [COLON] + SpellItem(none));
        Onward(t, p, q, at, head, SpellQuoted(key) + (mid + ([COLON] + SpellItem(none))), []);
        Unended(head, SpellQuoted(key) + (mid + ([COLON] + SpellItem(none))));
      } else {
        var i := ItemContinued(t, c + 1);
        f := Field(head, key, mid, i);
        OneByte(t, c);
        Onward(t, c, c + 1, at, [COLON], SpellItem(i), []);
        Unended([COLON], SpellItem(i));
        Onward(t, k, c, at, mid, [COLON] + SpellItem(i), []);
        Unended(mid, [COLON] + SpellItem(i));
        Onward(t, q, k, at, SpellQuoted(key), mid + ([COLON] + SpellItem(i)), []);
        Unended(SpellQuoted(key), mid + ([COLON] + SpellItem(i)));
        Onward(t, p, q, at, head, SpellQuoted(key) + (mid + ([COLON] + SpellItem(i))), []);
        Unended(head, SpellQuoted(key) + (mid + ([COLON] + SpellItem(i))));
      }
    }
  }

  lemma Unended(a: seq<byte>, b: seq<byte>)
    ensures a + (b + []) == a + b
  {
    assert b + [] == b;
  }

  lemma MembersCases(t: seq<byte>, p: nat)
    requires p <= |t|
    ensures var r := ReadMember(t, p); var s := ReadMembers(t, p);
            && (r.Failed? ==> s == Failed(r.at)) && (r.Outside? ==> s == Outside)
            && (r.Parsed? ==>
                  if At(t, r.end) == COMMA then
                    var rest := ReadMembers(t, r.end + 1);
                    && (rest.Failed? ==> s == Failed(rest.at)) && (rest.Outside? ==> s == Outside)
                    && (rest.Parsed? ==> s.Parsed?)
                  else if At(t, r.end) == RBRACE then s.Parsed? else s == Failed(r.end))
  {
    hide ReadMember;
  }

  lemma {:induction false} FieldsContinued(t: seq<byte>, p: nat) returns (s: seq<Field>)
    requires p <= |t| && NulFree(t) && ReadMembers(t, p).Failed?
    ensures s != [] && LooseFields(s) && t[p..ReadMembers(t, p).at] <= SpellFields(s)
    decreases |t| - p, 4
  {
    hide ReadMember, ReadMembers, LooseField, LooseFields, SpellField, SpellFields, DeriveField, MemberOf, MembersOf;
    MembersCases(t, p);
    NoLooseItems();
    var r, at := ReadMember(t, p), ReadMembers(t, p).at;
    if r.Failed? {
      var f := FieldContinued(t, p);
      s := [f];
      assert s[1..] == [];
      FieldEntries(s);
    } else {
      FieldDerived(t, p);
      var n, f := r.end, DeriveField(t, p);
      if At(t, n) == COMMA {
        var rest := FieldsContinued(t, n + 1);
        s := [f] + rest;
        assert s[1..] == rest;
        FieldEntries(s);
        OneByte(t, n);
        Onward(t, n, n + 1, at, [COMMA], SpellFields(rest), []);
        Unended([COMMA], SpellFields(rest));
        Onward(t, p, n, at, SpellField(f), [COMMA] + SpellFields(rest), []);
        Unended(SpellField(f), [COMMA] + SpellFields(rest));
      } else {
        s := [f];
        assert s[1..] == [];
        FieldEntries(s);
      }
    }
  }

  /** Whatever precedes the error is the beginning of a text of the grammar. */
  lemma BeforeTheError(t: seq<byte>, whole: bool)
    requires NulFree(t) && ReadText(t, whole).Failed?
    ensures Viable(t[..ReadText(t, whole).at])
  {
    hide Skip, ReadValue, LooseItem, SpellItem, Derive, Loose, ValueOf;
    var at := ReadText(t, whole).at;
    assert t[0..at] == t[..at];
    if ReadValue(t, Skip(t, 0)).Failed? {
      var i := ItemContinued(t, 0);
    } else {
      ItemDerived(t, 0);
    }
  }

  // ----- What goes further cannot

  /** Both texts start with the same `n` bytes. */
  predicate Alike(t: seq<byte>, u: seq<byte>, n: nat) {
    n <= |t| && n <= |u| && t[..n] == u[..n]
  }

  lemma AlikeIn(t: seq<byte>, u: seq<byte>, n: nat)
    requires Alike(t, u, n)
    ensures n <= |t| && n <= |u|
  {
  }

  lemma AlikeAt(t: seq<byte>, u: seq<byte>, n: nat, p: nat)
    requires Alike(t, u, n) && p < n
    ensures At(t, p) == At(u, p) == t[p] == u[p]
  {
    assert t[..n][p] == u[..n][p];
  }

  lemma AlikeHas(t: seq<byte>, u: seq<byte>, n: nat, p: nat, s: seq<byte>)
    requires Alike(t, u, n) && p + |s| <= n
    ensures Has(t, p, s) <==> Has(u, p, s)
  {
    assert t[p..p + |s|] == t[..n][p..p + |s|] && u[p..p + |s|] == u[..n][p..p + |s|];
  }

  lemma {:induction false} AlikeSkip(t: seq<byte>, u: seq<byte>, n: nat, p: nat)
    requires Alike(t, u, n) && p <= |t| && Skip(t, p) < n
    ensures Skip(u, p) == Skip(t, p)
    decreases |t| - p
  {
    hide Alike;
    AlikeAt(t, u, n, p);
    if IsBlank(At(t, p)) {
      AlikeSkip(t, u, n, p + 1);
    }
  }

  lemma {:induction false} AlikeDigits(t: seq<byte>, u: seq<byte>, n: nat, p: nat)
    requires Alike(t, u, n) && p <= |t| && DigitsEnd(t, p) < n
    ensures DigitsEnd(u, p) == DigitsEnd(t, p)
    decreases |t| - p
  {
    hide Alike;
    AlikeAt(t, u, n, p);
    if IsDigit(At(t, p)) {
      AlikeDigits(t, u, n, p + 1);
    }
  }

  lemma AlikeStart(t: seq<byte>, u: seq<byte>, n: nat, p: nat)
    requires Alike(t, u, n) && p <= |t| && DigitsStart(t, p) < n
    ensures DigitsStart(u, p) == DigitsStart(t, p)
  {
    hide Alike;
    AlikeAt(t, u, n, p);
    if At(t, p) == MINUS {
      AlikeAt(t, u, n, p + 1);
    }
  }

  /** A number with the same byte behind it, or one that goes on with a fraction. */
  lemma AlikeNumber(t: seq<byte>, u: seq<byte>, n: nat, p: nat)
    requires Alike(t, u, n) && p <= |t| && ReadNumber(t, p).Parsed? && ReadNumber(t, p).end < n
    ensures ReadNumber(u, p) == ReadNumber(t, p) || ReadNumber(u, p).Outside?
  {
    hide DigitsStart, DigitsEnd, Magnitude, Alike;
    var start, end := DigitsStart(t, p), ReadNumber(t, p).end;
    AlikeStart(t, u, n, p);
    AlikeAt(t, u, n, p);
    AlikeAt(t, u, n, start);
    if ONE <= At(t, start) <= NINE {
      AlikeDigits(t, u, n, start);
    }
    AlikeAt(t, u, n, end);
    assert t[start..end] == u[start..end] by { AlikeSlice(t, u, n, start, end); }
  }

  lemma AlikeSlice(t: seq<byte>, u: seq<byte>, n: nat, a: nat, b: nat)
    requires Alike(t, u, n) && a <= b <= n
    ensures t[a..b] == u[a..b]
  {
    assert t[a..b] == t[..n][a..b] && u[a..b] == u[..n][a..b];
  }

  lemma AlikeString(t: seq<byte>, u: seq<byte>, n: nat, p: nat)
    requires Alike(t, u, n) && NulFree(t) && p <= |t| && ReadString(t, p).Parsed? && ReadString(t, p).end <= n
    ensures ReadString(u, p) == ReadString(t, p)
  {
    hide ReadString, Lex, Alike, Has, LooseMarks, SpellQuoted, StringOf;
    var k := ReadString(t, p).end;
    StringClosed(t, p);
    StringDerived(t, p);
    var ms := DeriveMarks(t, p + 1);
    assert Has(t, p, SpellQuoted(ms)) by { SliceHas(t, p, k); }
    AlikeHas(t, u, n, p, SpellQuoted(ms));
    StringSpelled(u, p, ms);
  }

  lemma SliceHas(t: seq<byte>, p: nat, e: nat)
    requires p <= e <= |t|
    ensures Has(t, p, t[p..e])
  {
  }

  /** A value with the same byte behind it. */
  lemma AlikeValue(t: seq<byte>, u: seq<byte>, n: nat, p: nat)
    requires Alike(t, u, n) && NulFree(t) && p <= |t| && ReadValue(t, p).Parsed? && ReadValue(t, p).end < n
    ensures ReadValue(u, p) == ReadValue(t, p) || ReadValue(u, p).Outside?
  {
    hide Alike, Has, Loose, Spell, ReadNumber, Derive, ValueOf;
    var d, e := Derive(t, p), ReadValue(t, p).end;
    AlikeAt(t, u, n, p);
    NoWord(t, p);
    NoWord(u, p);
    if At(t, p) == MINUS || IsDigit(At(t, p)) {
      AlikeNumber(t, u, n, p);
    } else {
      PhraseDerived(t, p);
      SliceHas(t, p, e);
      AlikeHas(t, u, n, p, Spell(d));
      PhraseIn(u, p, d);
    }
  }

  /** Only a number has to be delimited. */
  lemma PhraseIn(t: seq<byte>, p: nat, d: Phrase)
    requires Loose(d) && Has(t, p, Spell(d)) && At(t, p) != MINUS && !IsDigit(At(t, p))
    ensures ReadValue(t, p) == Parsed(ValueOf(d), p + |Spell(d)|)
  {
    hide ReadValue;
    match d
    case Numeral(_, _, _) => NumeralStarts(t, p, d);
    case Quoted(marks) => QuotedSpelled(t, p, marks);
    case Listed(lead, items) => ListedSpelled(t, p, lead, items);
    case Braced(lead, fields) => BracedSpelled(t, p, lead, fields);
    case _ => WordSpelled(t, p, d);
  }

  lemma NumeralStarts(t: seq<byte>, p: nat, d: Phrase)
    requires d.Numeral? && Loose(d) && Has(t, p, Spell(d))
    ensures At(t, p) == MINUS || IsDigit(At(t, p))
  {
    HasByte(t, p, Spell(d), 0);
  }

  /** Beyond the error, and, if a word is misspelled there, beyond the word. */
  predicate Beyond(t: seq<byte>, at: nat, n: nat) {
    at < n <= |t| && (t[at] in {LOWER_N, LOWER_F, LOWER_T} ==> at + 4 < n)
  }

  /** A value that fails in one text is no value in another one that is the same up to beyond the error. */
  lemma {:induction false} AlikeFails(t: seq<byte>, u: seq<byte>, n: nat, p: nat)
    requires Alike(t, u, n) && NulFree(t) && p <= |t| && ReadValue(t, p).Failed? && Beyond(t, ReadValue(t, p).at, n)
    ensures !ReadValue(u, p).Parsed?
    decreases |t| - p, 1
  {
    hide Alike, Has, Skip, ReadItems, ReadMembers;
    var at := ReadValue(t, p).at;
    AlikeAt(t, u, n, p);
    NoWord(t, p);
    NoWord(u, p);
    if At(t, p) == LBRACKET {
      ArrayValue(t, p);
      ArrayValue(u, p);
      var q := Skip(t, p + 1);
      AlikeSkip(t, u, n, p + 1);
      AlikeAt(t, u, n, q);
      ItemsFail(t, u, n, q);
    } else if At(t, p) == LBRACE {
      ObjectValue(t, p);
      ObjectValue(u, p);
      var q := Skip(t, p + 1);
      AlikeSkip(t, u, n, p + 1);
      AlikeAt(t, u, n, q);
      MembersFail(t, u, n, q);
    } else if At(t, p) in {LOWER_N, LOWER_F, LOWER_T} {
      AlikeHas(t, u, n, p, NULL_TEXT);
      AlikeHas(t, u, n, p, FALSE_TEXT);
      AlikeHas(t, u, n, p, TRUE_TEXT);
    }
  }

  lemma {:induction false} ItemsFail(t: seq<byte>, u: seq<byte>, n: nat, p: nat)
    requires Alike(t, u, n) && NulFree(t) && p <= |t| && ReadItems(t, p).Failed? && Beyond(t, ReadItems(t, p).at, n)
    ensures !ReadItems(u, p).Parsed?
    decreases |t| - p, 2
  {
    hide Alike, Skip, ReadValue, ReadItems;
    var q := Skip(t, p);
    var r := ReadValue(t, q);
    AlikeIn(t, u, n);
    ItemsCases(t, p);
    ItemsCases(u, p);
    AlikeSkip(t, u, n, p);
    if r.Failed? {
      AlikeFails(t, u, n, q);
    } else {
      var m := Skip(t, r.end);
      AlikeValue(t, u, n, q);
      AlikeSkip(t, u, n, r.end);
      AlikeAt(t, u, n, m);
      if At(t, m) == COMMA {
        ItemsFail(t, u, n, m + 1);
      }
    }
  }

  lemma {:induction false} MemberFails(t: seq<byte>, u: seq<byte>, n: nat, p: nat)
    requires Alike(t, u, n) && NulFree(t) && p <= |t| && ReadMember(t, p).Failed? && Beyond(t, ReadMember(t, p).at, n)
    ensures !ReadMember(u, p).Parsed?
    decreases |t| - p, 2
  {
    hide Alike, Skip, ReadValue, Lex;
    var q := Skip(t, p);
    AlikeSkip(t, u, n, p);
    AlikeAt(t, u, n, q);
    if At(t, q) == QUOTE {
      var k := ReadString(t, q).end;
      var c := Skip(t, k);
      AlikeString(t, u, n, q);
      AlikeSkip(t, u, n, k);
      AlikeAt(t, u, n, c);
      if At(t, c) == COLON {
        AlikeSkip(t, u, n, c + 1);
        AlikeFails(t, u, n, Skip(t, c + 1));
      }
    }
  }

  /** An entry of an object and what stands behind it. */
  lemma AlikeMember(t: seq<byte>, u: seq<byte>, n: nat, p: nat)
    requires Alike(t, u, n) && NulFree(t) && p <= |t| && ReadMember(t, p).Parsed? && ReadMember(t, p).end < n
    ensures ReadMember(u, p) == ReadMember(t, p) || ReadMember(u, p).Outside?
  {
    hide Alike, Skip, ReadValue, ReadString;
    var q := Skip(t, p);
    var k := ReadString(t, q).end;
    var c := Skip(t, k);
    var v := Skip(t, c + 1);
    var e := ReadValue(t, v).end;
    AlikeSkip(t, u, n, p);
    AlikeString(t, u, n, q);
    AlikeSkip(t, u, n, k);
    AlikeAt(t, u, n, c);
    AlikeSkip(t, u, n, c + 1);
    AlikeValue(t, u, n, v);
    AlikeSkip(t, u, n, e);
  }

  lemma {:induction false} MembersFail(t: seq<byte>, u: seq<byte>, n: nat, p: nat)
    requires Alike(t, u, n) && NulFree(t) && p <= |t| && ReadMembers(t, p).Failed?
             && Beyond(t, ReadMembers(t, p).at, n)
    ensures !ReadMembers(u, p).Parsed?
    decreases |t| - p, 3
  {
    hide Alike, ReadMember, ReadMembers;
    var r := ReadMember(t, p);
    AlikeIn(t, u, n);
    MembersCases(t, p);
    MembersCases(u, p);
    if r.Failed? {
      MemberFails(t, u, n, p);
    } else {
      AlikeMember(t, u, n, p);
      AlikeAt(t, u, n, r.end);
      if At(t, r.end) == COMMA {
        MembersFail(t, u, n, r.end + 1);
      }
    }
  }

  lemma BehindTheError(t: seq<byte>, whole: bool, n: nat, i: Item)
    requires NulFree(t) && ReadText(t, whole).Failed? && Beyond(t, ReadText(t, whole).at, n) && LooseItem(i)
    ensures !(t[..n] <= SpellItem(i))
  {
    hide Alike, Skip, ReadValue, LooseItem, SpellItem;
    var u, q := SpellItem(i), Skip(t, 0);
    if t[..n] <= u {
      AlikePrefix(t, u, n);
      TextSpelled(i);
      AlikeSkip(t, u, n, 0);
      if ReadValue(t, q).Failed? {
        AlikeFails(t, u, n, q);
      } else {
        AlikeValue(t, u, n, q);
        AlikeSkip(t, u, n, ReadValue(t, q).end);
      }
      assert false;
    }
  }

  lemma AlikePrefix(t: seq<byte>, u: seq<byte>, n: nat)
    requires n <= |t| && t[..n] <= u
    ensures Alike(t, u, n) && n <= |u|
  {
  }

  /** Where a text that is rejected goes wrong: what precedes the position that is reported begins some text of the
      grammar, and nothing longer does, unless the position is the start of a misspelled word. */
  lemma ErrorPosition(t: seq<byte>, whole: bool)
    requires NulFree(t) && ReadText(t, whole).Failed?
    ensures Viable(t[..ReadText(t, whole).at])
    ensures forall n :: 0 <= n <= |t| && Viable(t[..n]) && n > ReadText(t, whole).at ==>
              t[ReadText(t, whole).at] in {LOWER_N, LOWER_F, LOWER_T} && n <= ReadText(t, whole).at + 4
  {
    hide ReadText, LooseItem, SpellItem;
    var at := ReadText(t, whole).at;
    BeforeTheError(t, whole);
    forall n | 0 <= n <= |t| && Viable(t[..n]) && n > at
      ensures t[at] in {LOWER_N, LOWER_F, LOWER_T} && n <= at + 4
    {
      var i :| LooseItem(i) && t[..n] <= SpellItem(i);
      if Beyond(t, at, n) {
        BehindTheError(t, whole, n, i);
      }
    }
  }
}
