/**
  What is printed conforms to RFC 8259, if and only if the strings and keys are
  in UTF-8: printing escapes what has to be escaped, and no other byte.
 */
module PrintedConforms {
  import opened Bytes
  import opened Utf
  import opened Literals
  import opened Values
  import opened Grammar
  import opened RoundTrip
  import opened Syntax
  import opened SyntaxLaws
  import opened Rfc8259

  // ----- Escaping and UTF-8

  /** A character of one byte in front. */
  lemma AsciiInFront(c: byte, s: seq<byte>)
    requires c < 0x80
    ensures Utf8([c] + s) <==> Utf8(s)
  {
    var t := [c] + s;
    assert t[..1] == [c] && t[1..] == s && WellFormed(t[..1]);
    if Utf8(t) {
      var n :| 1 <= n <= |t| && WellFormed(t[..n]) && Utf8(t[n..]);
      assert t[..n][0] == c && n == 1;
    }
  }

  predicate Ascii(s: seq<byte>) {
    forall i :: 0 <= i < |s| ==> s[i] < 0x80
  }

  lemma {:induction false} AsciiRunInFront(a: seq<byte>, s: seq<byte>)
    requires Ascii(a)
    ensures Utf8(a + s) <==> Utf8(s)
    decreases |a|
  {
    if a == [] {
      assert a + s == s;
    } else {
      assert a + s == [a[0]] + (a[1..] + s);
      AsciiInFront(a[0], a[1..] + s);
      AsciiRunInFront(a[1..], s);
    }
  }

  predicate High(s: seq<byte>) {
    forall i :: 0 <= i < |s| ==> s[i] >= 0x80
  }

  lemma CharacterIsHigh(s: seq<byte>)
    requires WellFormed(s) && s[0] >= 0x80
    ensures High(s)
  {
  }

  lemma EscapeShape(c: byte)
    ensures c >= 0x80 ==> EscapeByte(c) == [c]
    ensures c < 0x80 ==> Ascii(EscapeByte(c))
  {
  }

  /** High bytes are printed as they are. */
  lemma {:induction false} EscapedHigh(s: seq<byte>, n: nat)
    requires n <= |s| && High(s[..n])
    ensures Escaped(s) == s[..n] + Escaped(s[n..])
    decreases n
  {
    if n == 0 {
      assert s[..0] + Escaped(s[0..]) == Escaped(s);
    } else {
      assert s[..n][0] == s[0];
      EscapeShape(s[0]);
      assert s[1..][..n - 1] == s[..n][1..] && s[1..][n - 1..] == s[n..];
      EscapedHigh(s[1..], n - 1);
      assert [s[0]] + (s[1..][..n - 1] + Escaped(s[n..])) == s[..n] + Escaped(s[n..]);
    }
  }

  /** And high bytes come from nothing else. */
  lemma {:induction false} HighFromHigh(s: seq<byte>, n: nat)
    requires n <= |Escaped(s)| && High(Escaped(s)[..n])
    ensures n <= |s| && s[..n] == Escaped(s)[..n]
    decreases n
  {
    if n > 0 {
      assert s != [];
      EscapeShape(s[0]);
      var e, rest := EscapeByte(s[0]), Escaped(s[1..]);
      assert Escaped(s)[..n][0] == e[0] && e == [s[0]];
      assert rest[..n - 1] == Escaped(s)[..n][1..];
      HighFromHigh(s[1..], n - 1);
      assert s[..n] == [s[0]] + s[1..][..n - 1];
      assert Escaped(s)[..n] == [s[0]] + rest[..n - 1];
    }
  }

  lemma {:induction false} EscapedUtf8(s: seq<byte>)
    ensures Utf8(Escaped(s)) <==> Utf8(s)
    decreases |s|
  {
    if s != [] {
      EscapeShape(s[0]);
      if s[0] < 0x80 {
        AsciiRunInFront(EscapeByte(s[0]), Escaped(s[1..]));
        AsciiInFront(s[0], s[1..]);
        assert s == [s[0]] + s[1..];
        EscapedUtf8(s[1..]);
      } else {
        if Utf8(s) {
          HighKept(s);
        }
        if Utf8(Escaped(s)) {
          HighTaken(s);
        }
      }
    }
  }

  lemma {:induction false} HighKept(s: seq<byte>)
    requires s != [] && s[0] >= 0x80 && Utf8(s)
    ensures Utf8(Escaped(s))
    decreases |s|, 0
  {
    var n :| 1 <= n <= |s| && WellFormed(s[..n]) && Utf8(s[n..]);
    assert s[..n][0] == s[0];
    CharacterIsHigh(s[..n]);
    EscapedHigh(s, n);
    EscapedUtf8(s[n..]);
    var e := Escaped(s);
    assert e[..n] == s[..n] && e[n..] == Escaped(s[n..]);
  }

  lemma {:induction false} HighTaken(s: seq<byte>)
    requires s != [] && s[0] >= 0x80 && Utf8(Escaped(s))
    ensures Utf8(s)
    decreases |s|, 0
  {
    var e := Escaped(s);
    EscapeShape(s[0]);
    assert e[0] == s[0];
    var n :| 1 <= n <= |e| && WellFormed(e[..n]) && Utf8(e[n..]);
    assert e[..n][0] == e[0];
    CharacterIsHigh(e[..n]);
    HighFromHigh(s, n);
    EscapedHigh(s, n);
    assert e[n..] == Escaped(s[n..]);
    EscapedUtf8(s[n..]);
  }

  // ----- How a printed text is made up

  function MarkFor(c: byte): Mark {
    if c > 31 && c != QUOTE && c != BACKSLASH then Raw(c)
    else if c == BACKSLASH || c == QUOTE then Short(c)
    else if c == BS then Short(LOWER_B)
    else if c == FF then Short(LOWER_F)
    else if c == LF then Short(LOWER_N)
    else if c == CR then Short(LOWER_R)
    else if c == TAB then Short(LOWER_T)
    else Code([ZERO, ZERO, ZERO + c / 16, HexChar(c % 16)])
  }

  function MarksFor(s: seq<byte>): (ms: seq<Mark>)
    ensures |ms| == |s| && forall i :: 0 <= i < |s| ==> ms[i] == MarkFor(s[i])
  {
    if s == [] then [] else [MarkFor(s[0])] + MarksFor(s[1..])
  }

  lemma MarkIs(c: byte)
    ensures SpellMark(MarkFor(c)) == EscapeByte(c) && StrictMark(MarkFor(c)) && (c != NUL ==> LooseMark(MarkFor(c)))
  {
  }

  lemma {:induction false} MarksSpell(s: seq<byte>)
    ensures SpellMarks(MarksFor(s)) == Escaped(s)
  {
    if s != [] {
      MarkIs(s[0]);
      MarksSpell(s[1..]);
      assert MarksFor(s)[1..] == MarksFor(s[1..]);
    }
  }

  lemma MarksAre(s: seq<byte>)
    requires NulFree(s)
    ensures SpellQuoted(MarksFor(s)) == Quote(s) && LooseMarks(MarksFor(s))
    ensures StrictMarks(MarksFor(s)) <==> Utf8(s)
  {
    hide MarkFor, LooseMark, StrictMark;
    MarksSpell(s);
    EscapedUtf8(s);
    forall i | 0 <= i < |s| ensures LooseMark(MarksFor(s)[i]) && StrictMark(MarksFor(s)[i]) {
      MarkIs(s[i]);
    }
  }

  function Written(v: Json, depth: nat, fmt: bool): Phrase
    decreases v, 1
  {
    match v
    case Null => NullWord
    case False => FalseWord
    case True => TrueWord
    case Number(n) => Numeral(n < 0, n == 0, if n == 0 then [] else Digits(if n < 0 then -n else n))
    case String(s) => Quoted(MarksFor(s))
    case Array(items) => Listed([], WrittenItems(items, depth + 1, fmt, []))
    case Object(members) =>
      if members == [] then Braced(LineFeed(fmt) + Indent(depth - 1, fmt), [])
      else Braced([], WrittenFields(members, depth + 1, fmt, Indent(depth, fmt)))
  }

  function WrittenItems(s: seq<Json>, depth: nat, fmt: bool, before: seq<byte>): (r: seq<Item>)
    ensures |r| == |s|
    decreases s, 0
  {
    if s == [] then []
    else [Item(before, Written(s[0], depth, fmt), [])]
         + WrittenItems(s[1..], depth, fmt, if fmt then [SPACE] else [])
  }

  function WrittenField(m: Member, depth: nat, fmt: bool, after: seq<byte>): Field
    decreases m, 2
  {
    Field(LineFeed(fmt) + Indent(depth, fmt), MarksFor(m.key), [],
          Item(Indent(1, fmt), Written(m.value, depth, fmt), after))
  }

  /** `close` stands in front of the closing brace, behind a line feed. */
  function WrittenFields(s: seq<Member>, depth: nat, fmt: bool, close: seq<byte>): (r: seq<Field>)
    ensures |r| == |s|
    decreases s, 0
  {
    if s == [] then []
    else [WrittenField(s[0], depth, fmt, if |s| == 1 then LineFeed(fmt) + close else [])]
         + WrittenFields(s[1..], depth, fmt, close)
  }

  ghost predicate Utf8Value(v: Json)
    decreases v, 1
  {
    match v
    case String(s) => Utf8(s)
    case Array(items) => Utf8Items(items)
    case Object(members) => Utf8Members(members)
    case _ => true
  }

  ghost predicate Utf8Items(s: seq<Json>)
    decreases s, 0
  {
    s == [] || (Utf8Value(s[0]) && Utf8Items(s[1..]))
  }

  ghost predicate Utf8Members(s: seq<Member>)
    decreases s, 0
  {
    s == [] || (Utf8(s[0].key) && Utf8Value(s[0].value) && Utf8Members(s[1..]))
  }

  lemma SpacesAreBlanks(s: seq<byte>)
    requires Spaces(s)
    ensures Blanks(s)
  {
  }

  lemma IndentIsSpaces(n: int, fmt: bool)
    ensures Spaces(Indent(n, fmt)) && Spaces(LineFeed(fmt)) && Spaces(LineFeed(fmt) + Indent(n, fmt))
    ensures Spaces([]) && Spaces([SPACE])
  {
  }

  /** The phrase is spelled as the value is printed, and is strict just when the strings are in UTF-8. */
  ghost predicate WrittenWell(p: Phrase, text: seq<byte>, utf8: bool) {
    Spell(p) == text && Loose(p) && (Strict(p) <==> utf8)
  }

  lemma NumberWritten(n: int)
    requires IsInt32(n)
    ensures WrittenWell(Written(Number(n), 0, false), Decimal(n), true)
  {
    hide Digits, Magnitude;
    if n == 0 {
      ZeroDigits();
      assert [] + ([ZERO] + []) == [ZERO];
    } else {
      DigitsWritten(n < 0, if n < 0 then -n else n);
    }
  }

  lemma DigitsWritten(minus: bool, m: nat)
    requires m > 0 && IsInt32(if minus then -(m as int) else m)
    ensures var p := Numeral(minus, false, Digits(m));
            WrittenWell(p, if minus then [MINUS] + Digits(m) else Digits(m), true)
  {
    hide Digits, Magnitude;
    MagnitudeOfDigits(m);
    assert [] + Digits(m) == Digits(m);
  }

  lemma {:induction false} ValueWritten(v: Json, depth: nat, fmt: bool)
    requires Valid(v)
    ensures WrittenWell(Written(v, depth, fmt), Render(v, depth, fmt), Utf8Value(v))
    decreases v, 1
  {
    match v
    case Number(n) => NumberWritten(n);
    case String(s) => MarksAre(s);
    case Array(items) => ArrayWritten(items, depth, fmt);
    case Object(members) => ObjectWritten(members, depth, fmt);
    case _ =>
  }

  lemma {:induction false} ArrayWritten(items: seq<Json>, depth: nat, fmt: bool)
    requires ValidItems(items)
    ensures WrittenWell(Written(Array(items), depth, fmt), Render(Array(items), depth, fmt), Utf8Items(items))
    decreases items, 2
  {
    hide RenderItems, SpellItems, LooseItems, StrictItems;
    IndentIsSpaces(0, fmt);
    SpacesAreBlanks([]);
    ItemsWritten(items, depth + 1, fmt, []);
    RenderNothing(depth + 1, fmt);
    assert [] + RenderItems(items, depth + 1, fmt) == RenderItems(items, depth + 1, fmt);
    assert [] + (RenderItems(items, depth + 1, fmt) + [RBRACKET]) == RenderItems(items, depth + 1, fmt) + [RBRACKET];
  }

  lemma {:induction false} ItemWritten(v: Json, depth: nat, fmt: bool, before: seq<byte>)
    requires Valid(v) && Spaces(before)
    ensures var i := Item(before, Written(v, depth, fmt), []);
            SpellItem(i) == before + Render(v, depth, fmt) && LooseItem(i) && (StrictItem(i) <==> Utf8Value(v))
    decreases v, 6
  {
    hide Written, Render, Spell, Loose, Strict, Utf8Value, Spaces;
    IndentIsSpaces(0, fmt);
    SpacesAreBlanks(before);
    SpacesAreBlanks([]);
    ValueWritten(v, depth, fmt);
    assert before + (Render(v, depth, fmt) + []) == before + Render(v, depth, fmt);
  }

  lemma {:induction false} ItemsWritten(s: seq<Json>, depth: nat, fmt: bool, before: seq<byte>)
    requires ValidItems(s) && Spaces(before)
    ensures var w := WrittenItems(s, depth, fmt, before);
            && LooseItems(w) && (StrictItems(w) <==> Utf8Items(s))
            && SpellItems(w) == if s == [] then [] else before + RenderItems(s, depth, fmt)
    decreases s, 0
  {
    hide Written, Render, RenderItems, Spell, SpellItem, SpellItems, Loose, LooseItem, LooseItems, Strict, StrictItem,
      StrictItems, Utf8Value, Utf8Items, Spaces, Separator;
    var w, next := WrittenItems(s, depth, fmt, before), if fmt then [SPACE] else [];
    if s == [] {
      NoEntries(depth, fmt);
    } else {
      var r := Render(s[0], depth, fmt);
      IndentIsSpaces(0, fmt);
      ItemWritten(s[0], depth, fmt, before);
      ItemsWritten(s[1..], depth, fmt, next);
      assert w[1..] == WrittenItems(s[1..], depth, fmt, next);
      Entries(w);
      Unfolded(w, s, depth, fmt);
      if |s| > 1 {
        CommaGrouped(before, r, next, RenderItems(s[1..], depth, fmt));
      }
    }
  }

  lemma CommaGrouped(before: seq<byte>, r: seq<byte>, next: seq<byte>, rest: seq<byte>)
    ensures (before + r) + ([COMMA] + (next + rest)) == before + (r + (([COMMA] + next) + rest))
  {
  }

  lemma NoEntries(depth: nat, fmt: bool)
    ensures SpellItems([]) == [] && LooseItems([]) && StrictItems([]) && Utf8Items([])
  {
  }

  lemma Unfolded(w: seq<Item>, s: seq<Json>, depth: nat, fmt: bool)
    requires w != [] && s != []
    ensures StrictItems(w) <==> StrictItem(w[0]) && StrictItems(w[1..])
    ensures Utf8Items(s) <==> Utf8Value(s[0]) && Utf8Items(s[1..])
    ensures |s| == 1 ==> RenderItems(s, depth, fmt) == Render(s[0], depth, fmt)
    ensures |s| > 1 ==>
              RenderItems(s, depth, fmt)
              == Render(s[0], depth, fmt) + (([COMMA] + if fmt then [SPACE] else []) + RenderItems(s[1..], depth, fmt))
  {
    assert [COMMA] + (if fmt then [SPACE] else []) == Separator(fmt);
  }

  lemma {:induction false} ObjectWritten(members: seq<Member>, depth: nat, fmt: bool)
    requires ValidMembers(members)
    ensures WrittenWell(Written(Object(members), depth, fmt), Render(Object(members), depth, fmt), Utf8Members(members))
    decreases members, 5
  {
    hide RenderMembers, SpellFields, LooseFields, StrictFields, LineFeed, Indent, Spaces, Blanks;
    var lf := LineFeed(fmt);
    IndentIsSpaces(depth - 1, fmt);
    IndentIsSpaces(depth, fmt);
    SpacesAreBlanks([]);
    if members == [] {
      var tail := Indent(depth - 1, fmt);
      SpacesAreBlanks(lf + tail);
      NoFields(depth + 1, fmt);
      assert (lf + tail) + ([] + [RBRACE]) == lf + ([] + (tail + [RBRACE]));
    } else {
      var tail := Indent(depth, fmt);
      FieldsWritten(members, depth + 1, fmt, tail);
      var body := RenderMembers(members, depth + 1, fmt);
      assert [] + (((lf + body) + tail) + [RBRACE]) == lf + (body + (tail + [RBRACE]));
    }
  }

  lemma NoFields(depth: nat, fmt: bool)
    ensures SpellFields([]) == [] && LooseFields([]) && StrictFields([]) && RenderMembers([], depth, fmt) == []
  {
  }

  lemma Regroup(lf: seq<byte>, tabs: seq<byte>, key: seq<byte>, gap: seq<byte>, r: seq<byte>, after: seq<byte>)
    ensures (lf + tabs) + (key + ([] + ([COLON] + (gap + (r + after)))))
            == (lf + (tabs + (key + ([COLON] + (gap + r))))) + after
  {
  }

  lemma {:induction false} FieldWritten(m: Member, depth: nat, fmt: bool, after: seq<byte>)
    requires NulFree(m.key) && Valid(m.value) && Spaces(after)
    ensures var f := WrittenField(m, depth, fmt, after);
            && SpellField(f) == (LineFeed(fmt) + RenderMember(m, depth, fmt)) + after && LooseField(f)
            && (StrictField(f) <==> Utf8(m.key) && Utf8Value(m.value))
    decreases m, 3
  {
    hide Written, Render, Spell, Loose, Strict, Utf8Value, Spaces, Blanks, MarksFor, SpellQuoted, Quote, LooseMarks,
      StrictMarks, Indent, LineFeed;
    MarksAre(m.key);
    ValueWritten(m.value, depth, fmt);
    IndentIsSpaces(depth, fmt);
    IndentIsSpaces(1, fmt);
    SpacesAreBlanks([]);
    SpacesAreBlanks(after);
    SpacesAreBlanks(Indent(1, fmt));
    SpacesAreBlanks(LineFeed(fmt) + Indent(depth, fmt));
    Regroup(LineFeed(fmt), Indent(depth, fmt), Quote(m.key), Indent(1, fmt), Render(m.value, depth, fmt), after);
    var f := WrittenField(m, depth, fmt, after);
    assert LooseItem(f.item) && (StrictItem(f.item) <==> Utf8Value(m.value));
  }

  lemma LastGrouped(lf: seq<byte>, m: seq<byte>, close: seq<byte>)
    ensures ((lf + m) + (lf + close)) + [] == (lf + (m + ([] + (lf + [])))) + close
  {
  }

  lemma MoreGrouped(lf: seq<byte>, m: seq<byte>, rest: seq<byte>, close: seq<byte>)
    ensures ((lf + m) + []) + ([COMMA] + ((lf + rest) + close)) == (lf + (m + ([COMMA] + (lf + rest)))) + close
  {
  }

  lemma MembersUnfolded(s: seq<Member>, w: seq<Field>, depth: nat, fmt: bool)
    requires s != [] && |w| == |s|
    ensures SpellFields(w) == SpellField(w[0]) + (if |w| == 1 then [] else [COMMA] + SpellFields(w[1..]))
    ensures LooseFields(w) <==> LooseField(w[0]) && LooseFields(w[1..])
    ensures StrictFields(w) <==> StrictField(w[0]) && StrictFields(w[1..])
    ensures Utf8Members(s) <==> Utf8(s[0].key) && Utf8Value(s[0].value) && Utf8Members(s[1..])
    ensures RenderMembers(s, depth, fmt)
            == RenderMember(s[0], depth, fmt)
               + ((if |s| > 1 then [COMMA] else []) + (LineFeed(fmt) + RenderMembers(s[1..], depth, fmt)))
  {
    hide SpellField, LooseField, StrictField, Utf8, Utf8Value, RenderMember;
  }

  lemma {:induction false} FieldsWritten(s: seq<Member>, depth: nat, fmt: bool, close: seq<byte>)
    requires s != [] && ValidMembers(s) && Spaces(LineFeed(fmt) + close)
    ensures var w := WrittenFields(s, depth, fmt, close);
            && LooseFields(w) && (StrictFields(w) <==> Utf8Members(s))
            && SpellFields(w) == (LineFeed(fmt) + RenderMembers(s, depth, fmt)) + close
    decreases s, 4
  {
    hide WrittenField, RenderMember, RenderMembers, SpellField, SpellFields, LooseField, LooseFields, StrictField,
      StrictFields, Utf8, Utf8Value, Utf8Members, Spaces, LineFeed;
    var w, lf, m := WrittenFields(s, depth, fmt, close), LineFeed(fmt), RenderMember(s[0], depth, fmt);
    IndentIsSpaces(0, fmt);
    MembersUnfolded(s, w, depth, fmt);
    if |s| == 1 {
      FieldWritten(s[0], depth, fmt, lf + close);
      NoFields(depth, fmt);
      assert s[1..] == [] && w[1..] == [];
      NoMembers();
      LastGrouped(lf, m, close);
    } else {
      FieldWritten(s[0], depth, fmt, []);
      FieldsWritten(s[1..], depth, fmt, close);
      assert w[1..] == WrittenFields(s[1..], depth, fmt, close);
      MoreGrouped(lf, m, RenderMembers(s[1..], depth, fmt), close);
    }
  }

  lemma NoMembers()
    ensures Utf8Members([])
  {
  }

  /** A printed value is a JSON text as RFC 8259 has it, if and only if its strings and keys are in UTF-8. */
  lemma RenderConforms(v: Json, depth: nat, fmt: bool)
    requires Valid(v)
    ensures Conforms(Render(v, depth, fmt)) <==> Utf8Value(v)
  {
    hide Render, Written, Spell, Loose, Strict, Utf8Value, LooseItem, StrictItem, SpellItem, ReadText;
    var p := Written(v, depth, fmt);
    ValueWritten(v, depth, fmt);
    AloneIs(p);
    if Utf8Value(v) {
      AloneStrict(p);
    } else {
      Beyond(Alone(p));
    }
  }

  lemma AloneStrict(p: Phrase)
    requires Strict(p)
    ensures StrictItem(Alone(p))
  {
  }
}
