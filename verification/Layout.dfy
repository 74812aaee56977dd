/**
  The formatted layout is the compact one with blanks put in: a line for each
  entry of an object, indented by a tab for each object and array it is in.
 */
module Layout {
  import opened Bytes
  import opened Literals
  import opened Values
  import opened MinifyLaws
  import Minifier

  function Tabs(n: nat): seq<byte> {
    if n == 0 then [] else [TAB] + Tabs(n - 1)
  }

  /** A new line, at the depth of `n` objects and arrays. */
  function NewLine(n: nat): seq<byte> {
    [LF] + Tabs(n)
  }

  /** One level less. The brace of an empty object at the outermost level has none to lose. */
  function Less(n: nat): nat {
    if n == 0 then 0 else n - 1
  }

  /** The compact text from `p` with blanks put in. `open` says of the objects and arrays that enclose it, the
      innermost first, which are objects. */
  function Pretty(t: seq<byte>, p: nat, open: seq<bool>): seq<byte>
    requires p <= |t|
    decreases |t| - p
  {
    if p == |t| then []
    else if t[p] == QUOTE then
      var q := Minifier.LiteralEnd(t, p + 1);
      if q == 0 then t[p..] else t[p..q] + Pretty(t, q, open)
    else if t[p] == LBRACKET then [t[p]] + Pretty(t, p + 1, [false] + open)
    else if t[p] == LBRACE && At(t, p + 1) == RBRACE then
      [LBRACE] + NewLine(Less(|open|)) + [RBRACE] + Pretty(t, p + 2, open)
    else if t[p] == LBRACE then [LBRACE] + NewLine(|open| + 1) + Pretty(t, p + 1, [true] + open)
    else if open != [] && t[p] == RBRACE then NewLine(|open| - 1) + [RBRACE] + Pretty(t, p + 1, open[1..])
    else if open != [] && t[p] == RBRACKET then [RBRACKET] + Pretty(t, p + 1, open[1..])
    else if open != [] && t[p] == COMMA then
      (if open[0] then [COMMA] + NewLine(|open|) else [COMMA, SPACE]) + Pretty(t, p + 1, open)
    else if t[p] == COLON then [COLON, TAB] + Pretty(t, p + 1, open)
    else [t[p]] + Pretty(t, p + 1, open)
  }

  /** From `p` to `e`, putting in blanks makes `w` of the text. */
  ghost predicate Becomes(t: seq<byte>, p: nat, open: seq<bool>, e: nat, after: seq<bool>, w: seq<byte>) {
    p <= |t| && e <= |t| && Pretty(t, p, open) == w + Pretty(t, e, after)
  }

  lemma Chained(t: seq<byte>, p: nat, a: seq<bool>, q: nat, b: seq<bool>, e: nat, c: seq<bool>, v: seq<byte>,
        w: seq<byte>)
    requires Becomes(t, p, a, q, b, v) && Becomes(t, q, b, e, c, w)
    ensures Becomes(t, p, a, e, c, v + w)
  {
    assert v + (w + Pretty(t, e, c)) == (v + w) + Pretty(t, e, c);
  }

  lemma {:induction false} TabsAre(n: nat)
    ensures Tabs(n) == Indent(n, true)
  {
    if n > 0 {
      TabsAre(n - 1);
    }
  }

  predicate Ordinary(c: byte) {
    c !in {QUOTE, LBRACKET, RBRACKET, LBRACE, RBRACE, COMMA, COLON}
  }

  lemma {:induction false} OrdinaryStays(t: seq<byte>, p: nat, open: seq<bool>, s: seq<byte>)
    requires Has(t, p, s) && forall i :: 0 <= i < |s| ==> Ordinary(s[i])
    ensures Becomes(t, p, open, p + |s|, open, s)
    decreases |s|
  {
    hide Has;
    if s == [] {
      HasAt(t, p, s);
      assert [] + Pretty(t, p, open) == Pretty(t, p, open);
    } else {
      HasByte(t, p, s, 0);
      assert s == [s[0]] + s[1..];
      HasParts(t, p, [s[0]], s[1..]);
      OrdinaryStays(t, p + 1, open, s[1..]);
      Chained(t, p, open, p + 1, open, p + |s|, open, [s[0]], s[1..]);
    }
  }

  lemma HasAt(t: seq<byte>, p: nat, s: seq<byte>)
    requires Has(t, p, s)
    ensures p + |s| <= |t| && t[p..p + |s|] == s
  {
  }

  lemma LiteralStays(t: seq<byte>, p: nat, open: seq<bool>, q: nat)
    requires p < |t| && t[p] == QUOTE && 0 < q == Minifier.LiteralEnd(t, p + 1)
    ensures p < q <= |t| && Becomes(t, p, open, q, open, t[p..q])
  {
  }

  lemma QuoteStays(t: seq<byte>, p: nat, open: seq<bool>, s: seq<byte>)
    requires Has(t, p, Quote(s))
    ensures Becomes(t, p, open, p + |Quote(s)|, open, Quote(s))
  {
    hide Escaped, Has, Pretty, Becomes, Minifier.LiteralEnd;
    assert Quote(s) == [QUOTE] + (Escaped(s) + [QUOTE]);
    HasAt(t, p, Quote(s));
    HasByte(t, p, Quote(s), 0);
    HasParts(t, p, [QUOTE], Escaped(s) + [QUOTE]);
    LiteralEndEscaped(t, p + 1, s);
    LiteralStays(t, p, open, p + |Quote(s)|);
  }

  lemma {:induction false} DigitsOrdinary(n: nat)
    ensures forall i :: 0 <= i < |Digits(n)| ==> Ordinary(Digits(n)[i])
  {
  }

  lemma NumberStays(t: seq<byte>, p: nat, open: seq<bool>, n: int)
    requires Has(t, p, Decimal(n))
    ensures Becomes(t, p, open, p + |Decimal(n)|, open, Decimal(n))
  {
    hide Digits, Has;
    DigitsOrdinary(if n < 0 then -n else n);
    OrdinaryStays(t, p, open, Decimal(n));
  }

  /** A printed value that starts inside any text. */
  lemma {:induction false} ValueSpread(t: seq<byte>, p: nat, open: seq<bool>, v: Json)
    requires Has(t, p, Render(v, |open|, false))
    ensures Becomes(t, p, open, p + |Render(v, |open|, false)|, open, Render(v, |open|, true))
    decreases v, 1
  {
    hide RenderItems, RenderMembers, Has, Pretty, Becomes, Decimal, Quote;
    match v
    case Null => OrdinaryStays(t, p, open, NULL_TEXT);
    case False => OrdinaryStays(t, p, open, FALSE_TEXT);
    case True => OrdinaryStays(t, p, open, TRUE_TEXT);
    case Number(n) => NumberStays(t, p, open, n);
    case String(s) => QuoteStays(t, p, open, s);
    case Array(items) => ArraySpread(t, p, open, items);
    case Object(members) => ObjectSpread(t, p, open, members);
  }

  /** The brackets of an array. */
  lemma BracketStep(t: seq<byte>, p: nat, open: seq<bool>)
    requires p < |t|
    ensures t[p] == LBRACKET ==> Becomes(t, p, open, p + 1, [false] + open, [LBRACKET])
    ensures open != [] && t[p] == RBRACKET ==> Becomes(t, p, open, p + 1, open[1..], [RBRACKET])
    ensures open != [] && t[p] == COMMA && !open[0] ==> Becomes(t, p, open, p + 1, open, [COMMA, SPACE])
  {
  }

  lemma {:induction false} ArraySpread(t: seq<byte>, p: nat, open: seq<bool>, items: seq<Json>)
    requires Has(t, p, Render(Array(items), |open|, false))
    ensures var v := Array(items);
            Becomes(t, p, open, p + |Render(v, |open|, false)|, open, Render(v, |open|, true))
    decreases items, 3
  {
    hide RenderItems, Has, Pretty, Becomes;
    var body, inner := RenderItems(items, |open| + 1, false), [false] + open;
    HasParts(t, p, [LBRACKET], body + [RBRACKET]);
    HasByte(t, p, [LBRACKET], 0);
    HasParts(t, p + 1, body, [RBRACKET]);
    HasByte(t, p + 1 + |body|, [RBRACKET], 0);
    BracketStep(t, p, open);
    BracketStep(t, p + 1 + |body|, inner);
    assert inner[1..] == open;
    ItemsSpread(t, p + 1, inner, items);
    var w := RenderItems(items, |open| + 1, true);
    Chained(t, p + 1, inner, p + 1 + |body|, inner, p + 2 + |body|, open, w, [RBRACKET]);
    Chained(t, p, open, p + 1, inner, p + 2 + |body|, open, [LBRACKET], w + [RBRACKET]);
  }

  lemma NoItemsRendered(depth: nat, fmt: bool)
    ensures RenderItems([], depth, fmt) == [] && RenderMembers([], depth, fmt) == []
  {
  }

  lemma {:induction false} ItemsSpread(t: seq<byte>, p: nat, open: seq<bool>, s: seq<Json>)
    requires open != [] && !open[0] && Has(t, p, RenderItems(s, |open|, false))
    ensures Becomes(t, p, open, p + |RenderItems(s, |open|, false)|, open, RenderItems(s, |open|, true))
    decreases s, 2
  {
    hide Render, Has, Pretty, Becomes;
    if s == [] {
      OrdinaryStays(t, p, open, []);
    } else if |s| == 1 {
      ValueSpread(t, p, open, s[0]);
    } else {
      var a, rest := Render(s[0], |open|, false), RenderItems(s[1..], |open|, false);
      var q, e := p + |a|, p + |a| + 1 + |rest|;
      HasParts(t, p, a, [COMMA] + rest);
      HasParts(t, q, [COMMA], rest);
      HasByte(t, q, [COMMA], 0);
      ValueSpread(t, p, open, s[0]);
      BracketStep(t, q, open);
      ItemsSpread(t, q + 1, open, s[1..]);
      var w := RenderItems(s[1..], |open|, true);
      Chained(t, q, open, q + 1, open, e, open, [COMMA, SPACE], w);
      Chained(t, p, open, q, open, e, open, Render(s[0], |open|, true), [COMMA, SPACE] + w);
    }
  }

  /** The braces of an object. */
  lemma BraceStep(t: seq<byte>, p: nat, open: seq<bool>)
    requires p < |t|
    ensures t[p] == LBRACE && At(t, p + 1) == RBRACE ==>
              Becomes(t, p, open, p + 2, open, [LBRACE] + NewLine(Less(|open|)) + [RBRACE])
    ensures t[p] == LBRACE && At(t, p + 1) != RBRACE ==>
              Becomes(t, p, open, p + 1, [true] + open, [LBRACE] + NewLine(|open| + 1))
    ensures open != [] && t[p] == RBRACE ==>
              Becomes(t, p, open, p + 1, open[1..], NewLine(|open| - 1) + [RBRACE])
    ensures open != [] && t[p] == COMMA && open[0] ==> Becomes(t, p, open, p + 1, open, [COMMA] + NewLine(|open|))
    ensures t[p] == COLON ==> Becomes(t, p, open, p + 1, open, [COLON, TAB])
  {
    hide NewLine;
  }

  lemma NewLineIs(n: nat)
    ensures NewLine(n) == [LF] + Indent(n, true) && NewLine(Less(n)) == [LF] + Indent(n - 1, true)
  {
    TabsAre(n);
    TabsAre(Less(n));
  }

  lemma EmptyText(d: nat)
    ensures Render(Object([]), d, true) == [LBRACE] + NewLine(Less(d)) + [RBRACE]
  {
    hide NewLine, Indent;
    NewLineIs(d);
    NoItemsRendered(d + 1, true);
    var tail := Indent(d - 1, true);
    assert [LBRACE] + ([LF] + tail) + [RBRACE] == [LBRACE] + ([LF] + ([] + (tail + [RBRACE])));
  }

  lemma FullText(members: seq<Member>, d: nat)
    requires members != []
    ensures Render(Object(members), d, true)
            == ([LBRACE] + NewLine(d + 1)) + (MembersText(members, d + 1) + (NewLine(d) + [RBRACE]))
  {
    hide RenderMembers, MembersText, NewLine, Indent;
    NewLineIs(d);
    NewLineIs(d + 1);
    TextOfMembers(members, d + 1);
    var w, ind, tail := MembersText(members, d + 1), Indent(d + 1, true), Indent(d, true);
    assert ([LBRACE] + ([LF] + ind)) + (w + (([LF] + tail) + [RBRACE]))
        == [LBRACE] + ([LF] + (((ind + w) + [LF]) + (tail + [RBRACE])));
  }

  /** Where the braces of an object and its members lie in the compact text. */
  lemma ObjectParts(t: seq<byte>, p: nat, members: seq<Member>, d: nat)
    requires Has(t, p, Render(Object(members), d, false))
    ensures var body := RenderMembers(members, d + 1, false); var e := p + 2 + |body|;
            && e == p + |Render(Object(members), d, false)| <= |t| && t[p] == LBRACE && t[e - 1] == RBRACE
            && Has(t, p + 1, body) && (members == [] ==> body == []) && (members != [] ==> t[p + 1] == QUOTE)
  {
    hide RenderMembers, Has, Render;
    var body := RenderMembers(members, d + 1, false);
    CompactObject(members, d);
    HasParts(t, p, [LBRACE], body + [RBRACE]);
    HasByte(t, p, [LBRACE], 0);
    HasParts(t, p + 1, body, [RBRACE]);
    HasByte(t, p + 1 + |body|, [RBRACE], 0);
    NoItemsRendered(d + 1, false);
    if members != [] {
      StartsWithQuote(t, p + 1, members, d + 1);
    }
  }

  lemma {:induction false} ObjectSpread(t: seq<byte>, p: nat, open: seq<bool>, members: seq<Member>)
    requires Has(t, p, Render(Object(members), |open|, false))
    ensures var v := Object(members);
            Becomes(t, p, open, p + |Render(v, |open|, false)|, open, Render(v, |open|, true))
    decreases members, 4
  {
    hide RenderMembers, Render, Has, Pretty, Becomes, NewLine, MembersText;
    var d, body, inner := |open|, RenderMembers(members, |open| + 1, false), [true] + open;
    ObjectParts(t, p, members, d);
    BraceStep(t, p, open);
    if members == [] {
      EmptyText(d);
    } else {
      FullText(members, d);
      BraceStep(t, p + 1 + |body|, inner);
      assert inner[1..] == open;
      MembersSpread(t, p + 1, inner, members);
      var w, e := MembersText(members, d + 1), p + 2 + |body|;
      Chained(t, p + 1, inner, p + 1 + |body|, inner, e, open, w, NewLine(d) + [RBRACE]);
      Chained(t, p, open, p + 1, inner, e, open, [LBRACE] + NewLine(d + 1), w + (NewLine(d) + [RBRACE]));
    }
  }

  lemma CompactObject(members: seq<Member>, d: nat)
    ensures Render(Object(members), d, false) == [LBRACE] + (RenderMembers(members, d + 1, false) + [RBRACE])
  {
    hide RenderMembers;
    var body := RenderMembers(members, d + 1, false);
    assert [] + (body + ([] + [RBRACE])) == body + [RBRACE];
  }

  lemma StartsWithQuote(t: seq<byte>, p: nat, s: seq<Member>, depth: nat)
    requires s != [] && Has(t, p, RenderMembers(s, depth, false))
    ensures p < |t| && t[p] == QUOTE
  {
    hide Render, RenderMembers, Has;
    CompactMembers(s, depth);
    HasByte(t, p, RenderMembers(s, depth, false), 0);
  }

  /** The formatted members without the first indentation and the last line feed. */
  function MembersText(s: seq<Member>, depth: nat): seq<byte>
    requires s != []
    decreases |s|
  {
    Quote(s[0].key) + ([COLON, TAB] + (Render(s[0].value, depth, true)
    + (if |s| == 1 then [] else ([COMMA] + NewLine(depth)) + MembersText(s[1..], depth))))
  }

  lemma {:induction false} TextOfMembers(s: seq<Member>, depth: nat)
    requires s != []
    ensures RenderMembers(s, depth, true) == (Indent(depth, true) + MembersText(s, depth)) + [LF]
    decreases |s|
  {
    hide Render, Quote, Indent, NewLine;
    NewLineIs(depth);
    assert Indent(1, true) == [TAB] by { OneTab(); }
    var tabs, key, r := Indent(depth, true), Quote(s[0].key), Render(s[0].value, depth, true);
    if |s| == 1 {
      assert s[1..] == [];
      NoItemsRendered(depth, true);
      assert (tabs + (key + ([COLON] + ([TAB] + r)))) + ([] + ([LF] + []))
          == (tabs + (key + ([COLON, TAB] + (r + [])))) + [LF];
    } else {
      TextOfMembers(s[1..], depth);
      var w := MembersText(s[1..], depth);
      assert (tabs + (key + ([COLON] + ([TAB] + r)))) + ([COMMA] + ([LF] + ((tabs + w) + [LF])))
          == (tabs + (key + ([COLON, TAB] + (r + (([COMMA] + ([LF] + tabs)) + w))))) + [LF];
    }
  }

  lemma OneTab()
    ensures Indent(1, true) == [TAB]
  {
  }

  lemma CompactMembers(s: seq<Member>, depth: nat)
    requires s != []
    ensures var r := Render(s[0].value, depth, false);
            var more := if |s| == 1 then [] else [COMMA] + RenderMembers(s[1..], depth, false);
            RenderMembers(s, depth, false) == Quote(s[0].key) + ([COLON] + (r + more))
  {
    hide Render, Quote;
    var key, r, rest := Quote(s[0].key), Render(s[0].value, depth, false), RenderMembers(s[1..], depth, false);
    assert ([] + (key + ([COLON] + ([] + r)))) == key + ([COLON] + r);
    if |s| == 1 {
      assert s[1..] == [] && rest == [];
      assert (key + ([COLON] + r)) + ([] + ([] + rest)) == key + ([COLON] + (r + []));
    } else {
      assert (key + ([COLON] + r)) + ([COMMA] + ([] + rest)) == key + ([COLON] + (r + ([COMMA] + rest)));
    }
  }

  lemma {:induction false} MembersSpread(t: seq<byte>, p: nat, open: seq<bool>, s: seq<Member>)
    requires open != [] && open[0] && s != [] && Has(t, p, RenderMembers(s, |open|, false))
    ensures Becomes(t, p, open, p + |RenderMembers(s, |open|, false)|, open, MembersText(s, |open|))
    decreases s, 2
  {
    hide Render, RenderMembers, Quote, Has, Pretty, Becomes, NewLine;
    var d := |open|;
    var key, r, w := Quote(s[0].key), Render(s[0].value, d, false), Render(s[0].value, d, true);
    var more := if |s| == 1 then [] else [COMMA] + RenderMembers(s[1..], d, false);
    var c := p + |key|;
    var q := c + 1 + |r|;
    CompactMembers(s, d);
    HasParts(t, p, key, [COLON] + (r + more));
    HasParts(t, c, [COLON], r + more);
    HasByte(t, c, [COLON], 0);
    HasParts(t, c + 1, r, more);
    QuoteStays(t, p, open, s[0].key);
    BraceStep(t, c, open);
    ValueSpread(t, c + 1, open, s[0].value);
    var tail: seq<byte> := if |s| == 1 then [] else ([COMMA] + NewLine(d)) + MembersText(s[1..], d);
    var e := q + |more|;
    if |s| == 1 {
      OrdinaryStays(t, q, open, []);
    } else {
      HasParts(t, q, [COMMA], RenderMembers(s[1..], d, false));
      HasByte(t, q, [COMMA], 0);
      BraceStep(t, q, open);
      MembersSpread(t, q + 1, open, s[1..]);
      Chained(t, q, open, q + 1, open, e, open, [COMMA] + NewLine(d), MembersText(s[1..], d));
    }
    Chained(t, c + 1, open, q, open, e, open, w, tail);
    Chained(t, c, open, c + 1, open, e, open, [COLON, TAB], w + tail);
    Chained(t, p, open, c, open, e, open, key, [COLON, TAB] + (w + tail));
  }

  /** The formatted text of a value is its compact text with these blanks put in, and no others. */
  lemma FormattedIsPretty(v: Json)
    ensures Render(v, 0, true) == Pretty(Render(v, 0, false), 0, [])
  {
    hide Render, Pretty;
    var t := Render(v, 0, false);
    assert Has(t, 0, t) by { HasWhole(t); }
    ValueSpread(t, 0, [], v);
    assert Pretty(t, |t|, []) == [] by { PrettyEnd(t); }
    assert Render(v, 0, true) + [] == Render(v, 0, true);
  }

  lemma HasWhole(t: seq<byte>)
    ensures Has(t, 0, t)
  {
  }

  lemma PrettyEnd(t: seq<byte>)
    ensures Pretty(t, |t|, []) == []
  {
  }
}
