/**
  Parsing undoes printing, and printing what was parsed is a normal form.
 */
module RoundTrip {
  import opened Bytes
  import opened Literals
  import opened Values
  import opened Grammar

  // ----- Scanning lemmas

  lemma {:induction false} SkipOver(t: seq<byte>, p: nat, s: seq<byte>)
    requires Has(t, p, s) && (forall i :: 0 <= i < |s| ==> IsBlank(s[i])) && !IsBlank(At(t, p + |s|))
    ensures Skip(t, p) == p + |s|
    decreases |s|
  {
    if s != [] {
      HasByte(t, p, s, 0);
      assert s == s[..1] + s[1..];
      HasParts(t, p, s[..1], s[1..]);
      SkipOver(t, p + 1, s[1..]);
    }
  }

  lemma {:induction false} DigitsEndAt(t: seq<byte>, p: nat, q: nat)
    requires p <= q <= |t| && (forall i :: p <= i < q ==> IsDigit(t[i])) && !IsDigit(At(t, q))
    ensures DigitsEnd(t, p) == q
    decreases q - p
  {
    if p < q {
      DigitsEndAt(t, p + 1, q);
    }
  }

  lemma {:induction false} MagnitudeOfDigits(n: nat)
    ensures Magnitude(Digits(n)) == n
  {
    var s := Digits(n);
    if n < 10 {
      assert Magnitude(s[..0]) == 0;
    } else {
      assert s[..|s| - 1] == Digits(n / 10);
      MagnitudeOfDigits(n / 10);
    }
  }

  /** The byte behind a number does not continue it. */
  predicate EndsNumber(c: byte) {
    !IsDigit(c) && c != DOT && c != LOWER_E && c != UPPER_E
  }

  /** Digits of a positive number, read where the sign has been dealt with. */
  lemma DigitsRoundTrip(t: seq<byte>, p: nat, n: nat)
    requires n > 0 && Has(t, p, Digits(n)) && !IsDigit(At(t, p + |Digits(n)|))
    ensures ONE <= At(t, p) <= NINE && DigitsEnd(t, p) == p + |Digits(n)|
    ensures Magnitude(t[p..p + |Digits(n)|]) == n
  {
    var d := Digits(n);
    forall i | p <= i < p + |d| ensures IsDigit(t[i]) { HasByte(t, p, d, i - p); }
    HasByte(t, p, d, 0);
    MagnitudeOfDigits(n);
    DigitsEndAt(t, p, p + |d|);
  }

  lemma NumberRoundTrip(t: seq<byte>, p: nat, n: int)
    requires IsInt32(n) && Has(t, p, Decimal(n)) && EndsNumber(At(t, p + |Decimal(n)|))
    ensures ReadNumber(t, p) == Parsed(n, p + |Decimal(n)|)
  {
    hide Has, Digits, Magnitude;
    HasByte(t, p, Decimal(n), 0);
    if n < 0 {
      HasParts(t, p, [MINUS], Digits(-n));
      HasByte(t, p, [MINUS], 0);
      DigitsRoundTrip(t, p + 1, -n);
    } else if n > 0 {
      DigitsRoundTrip(t, p, n);
    } else {
      ZeroDigits();
      HasByte(t, p, [ZERO], 0);
      assert t[p + 1..p + 1] == [];
    }
  }

  lemma ZeroDigits()
    ensures Digits(0) == [ZERO] && Magnitude([]) == 0
  {
  }

  /** Which literal words cannot start at `p`, from the byte there. */
  lemma NoWord(t: seq<byte>, p: nat)
    requires p <= |t|
    ensures At(t, p) != LOWER_N ==> !Has(t, p, NULL_TEXT)
    ensures At(t, p) != LOWER_F ==> !Has(t, p, FALSE_TEXT)
    ensures At(t, p) != LOWER_T ==> !Has(t, p, TRUE_TEXT)
  {
    if Has(t, p, NULL_TEXT) { HasByte(t, p, NULL_TEXT, 0); }
    if Has(t, p, FALSE_TEXT) { HasByte(t, p, FALSE_TEXT, 0); }
    if Has(t, p, TRUE_TEXT) { HasByte(t, p, TRUE_TEXT, 0); }
  }

  /** Bytes that a printed value can start with. */
  predicate StartsValue(c: byte) {
    c in {LOWER_N, LOWER_F, LOWER_T, QUOTE, MINUS, LBRACKET, LBRACE} || IsDigit(c)
  }

  lemma RenderStarts(v: Json, depth: nat, fmt: bool)
    ensures |Render(v, depth, fmt)| >= 1 && StartsValue(Render(v, depth, fmt)[0])
  {
  }

  // ----- One step of the readers

  lemma ItemsStep(t: seq<byte>, p: nat, v: Json, e: nat)
    requires p <= |t| && e <= |t| && ReadValue(t, Skip(t, p)) == Parsed(v, e)
    ensures At(t, Skip(t, e)) == RBRACKET ==> ReadItems(t, p) == Parsed([v], Skip(t, e) + 1)
    ensures At(t, Skip(t, e)) == COMMA && ReadItems(t, Skip(t, e) + 1).Parsed? ==>
              var rest := ReadItems(t, Skip(t, e) + 1);
              ReadItems(t, p) == Parsed([v] + rest.value, rest.end)
  {
    hide ReadValue, Skip;
  }

  lemma MembersStep(t: seq<byte>, p: nat, m: Member, q: nat)
    requires p <= |t| && q <= |t| && ReadMember(t, p) == Parsed(m, q)
    ensures At(t, q) == RBRACE ==> ReadMembers(t, p) == Parsed([m], q + 1)
    ensures At(t, q) == COMMA && ReadMembers(t, q + 1).Parsed? ==>
              var rest := ReadMembers(t, q + 1);
              ReadMembers(t, p) == Parsed([m] + rest.value, rest.end)
  {
    hide ReadMember;
  }

  /** Leading blanks do not matter to the readers of entries. */
  lemma {:induction false} EntriesSkip(t: seq<byte>, p: nat, q: nat)
    requires p <= |t| && q <= |t| && Skip(t, p) == Skip(t, q)
    ensures ReadItems(t, p) == ReadItems(t, q)
    ensures ReadMember(t, p) == ReadMember(t, q)
    ensures ReadMembers(t, p) == ReadMembers(t, q)
  {
    hide ReadValue, ReadString, Skip;
  }

  lemma SkipStays(t: seq<byte>, p: nat)
    requires p <= |t| && !IsBlank(At(t, p))
    ensures Skip(t, p) == p
  {
  }

  /** Skipping over one blank more. */
  lemma SkipOne(t: seq<byte>, p: nat)
    requires p < |t| && IsBlank(t[p])
    ensures Skip(t, p) == Skip(t, p + 1)
  {
  }

  /** The key of an entry, printed and read. */
  lemma KeyRead(t: seq<byte>, q: nat, key: seq<byte>)
    requires NulFree(key) && Has(t, q, Quote(key))
    ensures q < |t| && At(t, q) == QUOTE && ReadString(t, q) == Parsed(key, q + |Quote(key)|)
  {
    hide Has, Lex, Text, Escaped;
    assert Quote(key) == [QUOTE] + (Escaped(key) + [QUOTE]);
    HasByte(t, q, Quote(key), 0);
    HasParts(t, q, [QUOTE], Escaped(key) + [QUOTE]);
    LexEscaped(t, q + 1, key);
  }

  /** An entry from its parts: key, colon and value, with blanks before and between them. */
  lemma MemberStep(t: seq<byte>, p: nat, q: nat, k: nat, v: nat, m: Member, e: nat)
    requires p <= |t| && q <= |t| && k < |t| && v <= |t| && e <= |t|
    requires Skip(t, p) == q && ReadString(t, q) == Parsed(m.key, k)
    requires Skip(t, k) == k && At(t, k) == COLON && Skip(t, k + 1) == v
    requires ReadValue(t, v) == Parsed(m.value, e)
    ensures ReadMember(t, p) == Parsed(m, Skip(t, e))
  {
    hide ReadString, ReadValue, Skip;
  }

  lemma SeparatorRead(t: seq<byte>, e: nat, fmt: bool)
    requires Has(t, e, Separator(fmt))
    ensures e + 1 <= e + |Separator(fmt)| <= |t| && At(t, e) == COMMA && Skip(t, e) == e
    ensures Skip(t, e + 1) == Skip(t, e + |Separator(fmt)|)
  {
    hide Has, Skip;
    HasByte(t, e, Separator(fmt), 0);
    SkipStays(t, e);
    if fmt {
      HasByte(t, e, Separator(fmt), 1);
      SkipOne(t, e + 1);
    }
  }

  lemma LineFeedRead(t: seq<byte>, e: nat, fmt: bool)
    requires e <= |t| && Has(t, e, LineFeed(fmt))
    ensures e + |LineFeed(fmt)| <= |t| && Skip(t, e) == Skip(t, e + |LineFeed(fmt)|)
  {
    hide Has, Skip;
    if fmt {
      HasByte(t, e, LineFeed(fmt), 0);
      SkipOne(t, e);
    }
  }

  // ----- Where the parts of a printed value lie

  lemma ItemsLayout(t: seq<byte>, p: nat, s: seq<Json>, depth: nat, fmt: bool)
    requires |s| > 1 && Has(t, p, RenderItems(s, depth, fmt))
    ensures var e := p + |Render(s[0], depth, fmt)|;
            var q := e + |Separator(fmt)|;
            && Has(t, p, Render(s[0], depth, fmt)) && Has(t, e, Separator(fmt))
            && Has(t, q, RenderItems(s[1..], depth, fmt))
            && q + |RenderItems(s[1..], depth, fmt)| == p + |RenderItems(s, depth, fmt)|
  {
    hide Has, Render;
    var r, sep, rest := Render(s[0], depth, fmt), Separator(fmt), RenderItems(s[1..], depth, fmt);
    HasParts(t, p, r, sep + rest);
    HasParts(t, p + |r|, sep, rest);
  }

  /** The comma behind an entry, unless it is the last. */
  function CommaAfter(s: seq<Member>): seq<byte> {
    if |s| > 1 then [COMMA] else []
  }

  lemma MembersLayout(t: seq<byte>, p: nat, s: seq<Member>, depth: nat, fmt: bool)
    requires s != [] && Has(t, p, RenderMembers(s, depth, fmt))
    ensures var e := p + |RenderMember(s[0], depth, fmt)|;
            var q := e + |CommaAfter(s)|;
            && Has(t, p, RenderMember(s[0], depth, fmt)) && Has(t, e, CommaAfter(s)) && Has(t, q, LineFeed(fmt))
            && Has(t, q + |LineFeed(fmt)|, RenderMembers(s[1..], depth, fmt))
            && q + |LineFeed(fmt)| + |RenderMembers(s[1..], depth, fmt)| == p + |RenderMembers(s, depth, fmt)|
  {
    hide Has, RenderMember;
    var m, comma, lf, rest := RenderMember(s[0], depth, fmt), CommaAfter(s), LineFeed(fmt),
      RenderMembers(s[1..], depth, fmt);
    HasParts(t, p, m, comma + (lf + rest));
    HasParts(t, p + |m|, comma, lf + rest);
    HasParts(t, p + |m| + |comma|, lf, rest);
  }

  lemma MemberLayout(t: seq<byte>, p: nat, m: Member, depth: nat, fmt: bool)
    requires Has(t, p, RenderMember(m, depth, fmt))
    ensures var q := p + |Indent(depth, fmt)|;
            var k := q + |Quote(m.key)|;
            var v := k + 1 + |Indent(1, fmt)|;
            && Has(t, p, Indent(depth, fmt)) && Has(t, q, Quote(m.key)) && Has(t, k, [COLON])
            && Has(t, k + 1, Indent(1, fmt)) && Has(t, v, Render(m.value, depth, fmt))
            && v + |Render(m.value, depth, fmt)| == p + |RenderMember(m, depth, fmt)|
  {
    hide Has, Render, Quote, Indent;
    var tabs, key, gap, v := Indent(depth, fmt), Quote(m.key), Indent(1, fmt), Render(m.value, depth, fmt);
    HasParts(t, p, tabs, key + ([COLON] + (gap + v)));
    HasParts(t, p + |tabs|, key, [COLON] + (gap + v));
    HasParts(t, p + |tabs| + |key|, [COLON], gap + v);
    HasParts(t, p + |tabs| + |key| + 1, gap, v);
  }

  /** The blanks in front of the brace that closes an object. */
  function CloseIndent(members: seq<Member>, depth: nat, fmt: bool): seq<byte> {
    Indent(if members == [] then depth - 1 else depth, fmt)
  }

  lemma ObjectLayout(t: seq<byte>, p: nat, members: seq<Member>, depth: nat, fmt: bool)
    requires Has(t, p, Render(Object(members), depth, fmt))
    ensures var q := p + 1 + |LineFeed(fmt)|;
            var e := q + |RenderMembers(members, depth + 1, fmt)|;
            var c := e + |CloseIndent(members, depth, fmt)|;
            && Has(t, p, [LBRACE]) && Has(t, p + 1, LineFeed(fmt))
            && Has(t, q, RenderMembers(members, depth + 1, fmt))
            && Has(t, e, CloseIndent(members, depth, fmt)) && Has(t, c, [RBRACE])
            && c + 1 == p + |Render(Object(members), depth, fmt)|
  {
    hide Has, RenderMembers, LineFeed, Indent;
    var lf, body := LineFeed(fmt), RenderMembers(members, depth + 1, fmt);
    var tail := CloseIndent(members, depth, fmt);
    HasParts(t, p, [LBRACE], lf + (body + (tail + [RBRACE])));
    HasParts(t, p + 1, lf, body + (tail + [RBRACE]));
    HasParts(t, p + 1 + |lf|, body, tail + [RBRACE]);
    HasParts(t, p + 1 + |lf| + |body|, tail, [RBRACE]);
  }

  // ----- The round trip

  /** A printed value, in either layout, at any depth and inside any text that does not continue a number,
      is read back as the same value, up to exactly its end. */
  lemma {:induction false} ReadRendered(t: seq<byte>, p: nat, v: Json, depth: nat, fmt: bool)
    requires Valid(v) && Has(t, p, Render(v, depth, fmt))
    requires EndsNumber(At(t, p + |Render(v, depth, fmt)|))
    ensures ReadValue(t, p) == Parsed(v, p + |Render(v, depth, fmt)|)
    decreases v, 1
  {
    hide ReadMembers, ReadItems, RenderItems, RenderMembers, Lex, Text, Escaped;
    var r := Render(v, depth, fmt);
    RenderStarts(v, depth, fmt);
    HasByte(t, p, r, 0);
    NoWord(t, p);
    match v
    case Null =>
    case False =>
    case True =>
    case Number(n) => NumberRoundTrip(t, p, n);
    case String(s) =>
      assert r == [QUOTE] + (Escaped(s) + [QUOTE]);
      HasParts(t, p, [QUOTE], Escaped(s) + [QUOTE]);
      LexEscaped(t, p + 1, s);
    case Array(items) => ReadRenderedArray(t, p, items, depth, fmt);
    case Object(members) => ReadRenderedObject(t, p, members, depth, fmt);
  }

  lemma {:induction false} ReadRenderedArray(t: seq<byte>, p: nat, items: seq<Json>, depth: nat, fmt: bool)
    requires ValidItems(items) && Has(t, p, Render(Array(items), depth, fmt))
    ensures ReadValue(t, p) == Parsed(Array(items), p + |Render(Array(items), depth, fmt)|)
    decreases items, 2
  {
    hide Has, ReadValue, ReadItems, Render, RenderItems, Skip;
    var body := RenderItems(items, depth + 1, fmt);
    assert Render(Array(items), depth, fmt) == [LBRACKET] + (body + [RBRACKET]) by { ArrayText(items, depth, fmt); }
    HasParts(t, p, [LBRACKET], body + [RBRACKET]);
    HasParts(t, p + 1, body, [RBRACKET]);
    HasByte(t, p, [LBRACKET], 0);
    HasByte(t, p + 1 + |body|, [RBRACKET], 0);
    ArrayValue(t, p);
    if items == [] {
      RenderNothing(depth + 1, fmt);
      SkipStays(t, p + 1);
    } else {
      ReadRenderedItems(t, p + 1, items, depth + 1, fmt);
    }
  }

  lemma ArrayText(items: seq<Json>, depth: nat, fmt: bool)
    ensures Render(Array(items), depth, fmt) == [LBRACKET] + (RenderItems(items, depth + 1, fmt) + [RBRACKET])
  {
    hide RenderItems;
  }

  lemma RenderNothing(depth: nat, fmt: bool)
    ensures RenderItems([], depth, fmt) == [] && RenderMembers([], depth, fmt) == []
  {
  }

  lemma RenderOne(s: seq<Json>, depth: nat, fmt: bool)
    requires |s| == 1
    ensures RenderItems(s, depth, fmt) == Render(s[0], depth, fmt)
  {
  }

  lemma {:induction false} ReadRenderedItems(t: seq<byte>, p: nat, s: seq<Json>, depth: nat, fmt: bool)
    requires s != [] && ValidItems(s) && Has(t, p, RenderItems(s, depth, fmt))
    requires At(t, p + |RenderItems(s, depth, fmt)|) == RBRACKET
    ensures Skip(t, p) == p && At(t, p) != RBRACKET
    ensures ReadItems(t, p) == Parsed(s, p + |RenderItems(s, depth, fmt)| + 1)
    decreases s, 0
  {
    hide Has, ReadValue, ReadItems, Render, RenderItems, Skip, Separator;
    var r := Render(s[0], depth, fmt);
    var e := p + |r|;
    RenderStarts(s[0], depth, fmt);
    if |s| == 1 {
      RenderOne(s, depth, fmt);
      HasByte(t, p, r, 0);
      ReadRendered(t, p, s[0], depth, fmt);
      SkipStays(t, p);
      SkipStays(t, e);
      ItemsStep(t, p, s[0], e);
      assert s == [s[0]];
    } else {
      var sep := Separator(fmt);
      ItemsLayout(t, p, s, depth, fmt);
      HasByte(t, p, r, 0);
      SeparatorRead(t, e, fmt);
      ReadRendered(t, p, s[0], depth, fmt);
      ReadRenderedItems(t, e + |sep|, s[1..], depth, fmt);
      SkipStays(t, p);
      EntriesSkip(t, e + 1, e + |sep|);
      ItemsStep(t, p, s[0], e);
      assert s == [s[0]] + s[1..];
    }
  }

  lemma {:induction false} ReadRenderedObject(t: seq<byte>, p: nat, members: seq<Member>, depth: nat, fmt: bool)
    requires ValidMembers(members) && Has(t, p, Render(Object(members), depth, fmt))
    ensures ReadValue(t, p) == Parsed(Object(members), p + |Render(Object(members), depth, fmt)|)
    decreases members, 4
  {
    hide Has, ReadValue, ReadMembers, Render, RenderMembers, Skip, LineFeed;
    var lead, body, tail := LineFeed(fmt), RenderMembers(members, depth + 1, fmt), CloseIndent(members, depth, fmt);
    var q := p + 1 + |lead|;
    ObjectLayout(t, p, members, depth, fmt);
    HasByte(t, p, [LBRACE], 0);
    HasByte(t, q + |body| + |tail|, [RBRACE], 0);
    ObjectValue(t, p);
    SkipOver(t, q + |body|, tail);
    SkipStays(t, q + |body| + |tail|);
    LineFeedRead(t, p + 1, fmt);
    if members == [] {
      assert body == [] by { RenderNothing(depth + 1, fmt); }
    } else {
      ReadRenderedMembers(t, q, members, depth + 1, fmt);
      SkipStays(t, Skip(t, p + 1));
      EntriesSkip(t, Skip(t, p + 1), q);
    }
  }

  lemma {:induction false} ReadRenderedMembers(t: seq<byte>, p: nat, s: seq<Member>, depth: nat, fmt: bool)
    requires s != [] && ValidMembers(s) && Has(t, p, RenderMembers(s, depth, fmt))
    requires At(t, Skip(t, p + |RenderMembers(s, depth, fmt)|)) == RBRACE
    ensures At(t, Skip(t, p)) == QUOTE
    ensures ReadMembers(t, p) == Parsed(s, Skip(t, p + |RenderMembers(s, depth, fmt)|) + 1)
    decreases s, 3
  {
    hide Has, ReadMember, ReadMembers, RenderMember, RenderMembers, Skip, LineFeed;
    var m, lf, comma := RenderMember(s[0], depth, fmt), LineFeed(fmt), CommaAfter(s);
    var e := p + |m|;
    var q := e + |comma| + |lf|;
    MembersLayout(t, p, s, depth, fmt);
    LineFeedRead(t, e + |comma|, fmt);
    if |s| == 1 {
      assert RenderMembers(s[1..], depth, fmt) == [] by { RenderNothing(depth, fmt); }
      SkipEndsNumber(t, e);
      ReadRenderedMember(t, p, s[0], depth, fmt);
      MembersStep(t, p, s[0], Skip(t, e));
      assert s == [s[0]];
    } else {
      HasByte(t, e, comma, 0);
      SkipStays(t, e);
      ReadRenderedMember(t, p, s[0], depth, fmt);
      ReadRenderedMembers(t, q, s[1..], depth, fmt);
      EntriesSkip(t, e + 1, q);
      MembersStep(t, p, s[0], e);
      assert s == [s[0]] + s[1..];
    }
  }

  /** A number is not continued by blanks or by what closes an object. */
  lemma SkipEndsNumber(t: seq<byte>, p: nat)
    requires p <= |t| && At(t, Skip(t, p)) == RBRACE
    ensures EndsNumber(At(t, p))
  {
  }

  lemma {:induction false} ReadRenderedMember(t: seq<byte>, p: nat, m: Member, depth: nat, fmt: bool)
    requires NulFree(m.key) && Valid(m.value) && Has(t, p, RenderMember(m, depth, fmt))
    requires EndsNumber(At(t, p + |RenderMember(m, depth, fmt)|))
    ensures At(t, Skip(t, p)) == QUOTE
    ensures ReadMember(t, p) == Parsed(m, Skip(t, p + |RenderMember(m, depth, fmt)|))
    decreases m, 2
  {
    hide Has, ReadValue, ReadString, ReadMember, Render, RenderMember, Quote, Indent, Skip;
    var tabs, gap, v := Indent(depth, fmt), Indent(1, fmt), Render(m.value, depth, fmt);
    var q := p + |tabs|;
    var k := q + |Quote(m.key)|;
    MemberLayout(t, p, m, depth, fmt);
    KeyRead(t, q, m.key);
    SkipOver(t, p, tabs);
    SkipStays(t, q);
    HasByte(t, k, [COLON], 0);
    SkipStays(t, k);
    RenderStarts(m.value, depth, fmt);
    HasByte(t, k + 1 + |gap|, v, 0);
    SkipOver(t, k + 1, gap);
    SkipStays(t, k + 1 + |gap|);
    ReadRendered(t, k + 1 + |gap|, m.value, depth, fmt);
    MemberStep(t, p, q, k, k + 1 + |gap|, m, k + 1 + |gap| + |v|);
  }

  /** Printing a value and parsing the text, with or without the check for trailing bytes, gives the value. */
  lemma ParsePrint(v: Json, depth: nat, fmt: bool, whole: bool)
    requires Valid(v)
    ensures ReadText(Render(v, depth, fmt), whole) == Parsed(v, |Render(v, depth, fmt)|)
  {
    var t := Render(v, depth, fmt);
    assert t[0..0 + |t|] == t;
    RenderStarts(v, depth, fmt);
    ReadRendered(t, 0, v, depth, fmt);
  }

  /** Two values that print alike, each in some layout, are the same value. */
  lemma PrintIsInjective(v: Json, w: Json, depth: nat, fmt: bool, depth': nat, fmt': bool)
    requires Valid(v) && Valid(w) && Render(v, depth, fmt) == Render(w, depth', fmt')
    ensures v == w
  {
    ParsePrint(v, depth, fmt, true);
    ParsePrint(w, depth', fmt', true);
  }

  /** For every accepted text: the value prints to a text that is accepted as a whole, for the same value,
      and so reprints to itself. */
  lemma NormalForm(t: seq<byte>, whole: bool, fmt: bool)
    requires NulFree(t) && ReadText(t, whole).Parsed?
    ensures Valid(ReadText(t, whole).value)
    ensures var printed := Render(ReadText(t, whole).value, 0, fmt);
            && ReadText(printed, true) == Parsed(ReadText(t, whole).value, |printed|)
            && Render(ReadText(printed, true).value, 0, fmt) == printed
  {
    ReadValueIsValid(t, Skip(t, 0));
    ParsePrint(ReadText(t, whole).value, 0, fmt, true);
  }
}
