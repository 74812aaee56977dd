/**
  Minifying a printed text gives the compact text, and minifying any accepted
  text keeps the value it stands for.
 */
module MinifyLaws {
  import opened Bytes
  import opened Literals
  import opened Values
  import opened Minifier
  import opened RoundTrip
  import Utf

  // ----- Minified formatted text is compact text

  /** The compact text of a value: the layout without blanks, the same at every depth. */
  function Compact(v: Json): seq<byte> { Render(v, 0, false) }

  /** Of the stretch of `t` from `p` to `e`, minifying leaves `w`. */
  ghost predicate Leaves(t: seq<byte>, p: nat, e: nat, w: seq<byte>) {
    p <= |t| && e <= |t| && Minify(t, p) == Prefix(w, Minify(t, e))
  }

  lemma Joins(t: seq<byte>, p: nat, q: nat, e: nat, a: seq<byte>, b: seq<byte>)
    requires Leaves(t, p, q, a) && Leaves(t, q, e, b)
    ensures Leaves(t, p, e, a + b)
  {
    if Minify(t, e).Minified? {
      assert a + (b + Minify(t, e).s) == a + b + Minify(t, e).s;
    }
  }

  predicate IsPlain(c: byte) { !IsGap(c) && c != SLASH && c != QUOTE }

  lemma {:induction false} LeavesGap(t: seq<byte>, p: nat, s: seq<byte>)
    requires Has(t, p, s) && forall i :: 0 <= i < |s| ==> IsGap(s[i])
    ensures Leaves(t, p, p + |s|, [])
    decreases |s|
  {
    if s == [] {
      if Minify(t, p).Minified? { assert [] + Minify(t, p).s == Minify(t, p).s; }
    } else {
      HasByte(t, p, s, 0);
      assert s == s[..1] + s[1..];
      HasParts(t, p, s[..1], s[1..]);
      LeavesGap(t, p + 1, s[1..]);
    }
  }

  lemma {:induction false} LeavesPlain(t: seq<byte>, p: nat, s: seq<byte>)
    requires Has(t, p, s) && forall i :: 0 <= i < |s| ==> IsPlain(s[i])
    ensures Leaves(t, p, p + |s|, s)
    decreases |s|
  {
    if s == [] {
      if Minify(t, p).Minified? { assert [] + Minify(t, p).s == Minify(t, p).s; }
    } else {
      HasByte(t, p, s, 0);
      assert s == [s[0]] + s[1..];
      HasParts(t, p, [s[0]], s[1..]);
      LeavesPlain(t, p + 1, s[1..]);
      Joins(t, p, p + 1, p + |s|, [s[0]], s[1..]);
    }
  }

  lemma {:induction false} LiteralEndEscaped(t: seq<byte>, p: nat, s: seq<byte>)
    requires Has(t, p, Escaped(s) + [QUOTE])
    ensures LiteralEnd(t, p) == p + |Escaped(s)| + 1
    decreases |s|
  {
    if s == [] {
      assert Escaped(s) + [QUOTE] == [QUOTE];
      HasByte(t, p, [QUOTE], 0);
    } else {
      var e := EscapeByte(s[0]);
      assert Escaped(s) + [QUOTE] == e + (Escaped(s[1..]) + [QUOTE]);
      HasParts(t, p, e, Escaped(s[1..]) + [QUOTE]);
      LiteralEndEscaped(t, p + |e|, s[1..]);
      LiteralEndOver(t, p, s[0]);
    }
  }

  lemma LiteralEndHex(t: seq<byte>, p: nat)
    requires Utf.HasHex4(t, p)
    ensures LiteralEnd(t, p) == LiteralEnd(t, p + 4)
  {
    assert LiteralEnd(t, p + 2) == LiteralEnd(t, p + 4);
  }

  /** The minifier steps over an escaped byte without stopping in it. */
  lemma LiteralEndOver(t: seq<byte>, p: nat, c: byte)
    requires Has(t, p, EscapeByte(c))
    ensures LiteralEnd(t, p) == LiteralEnd(t, p + |EscapeByte(c)|)
  {
    var e := EscapeByte(c);
    HasByte(t, p, e, 0);
    if |e| == 6 {
      HasByte(t, p, e, 2);
      HasByte(t, p, e, 3);
      HasByte(t, p, e, 4);
      HasByte(t, p, e, 5);
      LiteralEndHex(t, p + 2);
    }
  }

  lemma LeavesQuote(t: seq<byte>, p: nat, s: seq<byte>)
    requires Has(t, p, Quote(s))
    ensures Leaves(t, p, p + |Quote(s)|, Quote(s))
  {
    assert Quote(s) == [QUOTE] + (Escaped(s) + [QUOTE]);
    HasParts(t, p, [QUOTE], Escaped(s) + [QUOTE]);
    HasByte(t, p, [QUOTE], 0);
    LiteralEndEscaped(t, p + 1, s);
  }

  lemma {:induction false} CompactAtAnyDepth(v: Json, d: nat)
    ensures Render(v, d, false) == Compact(v)
    decreases v, 1
  {
    match v
    case Array(items) => CompactItems(items, d + 1, 1);
    case Object(members) => CompactMembers(members, d + 1, 1);
    case _ =>
  }

  lemma {:induction false} CompactItems(s: seq<Json>, d: nat, d': nat)
    ensures RenderItems(s, d, false) == RenderItems(s, d', false)
    decreases s, 0
  {
    if s != [] {
      CompactAtAnyDepth(s[0], d);
      CompactAtAnyDepth(s[0], d');
      CompactItems(s[1..], d, d');
    }
  }

  lemma {:induction false} CompactMembers(s: seq<Member>, d: nat, d': nat)
    ensures RenderMembers(s, d, false) == RenderMembers(s, d', false)
    decreases s, 0
  {
    if s != [] {
      CompactAtAnyDepth(s[0].value, d);
      CompactAtAnyDepth(s[0].value, d');
      CompactMembers(s[1..], d, d');
    }
  }

  /** Minifying a value printed in either layout, at any depth and inside any text, leaves its compact text. */
  lemma {:induction false} MinifyRendered(t: seq<byte>, p: nat, v: Json, depth: nat, fmt: bool)
    requires Has(t, p, Render(v, depth, fmt))
    ensures Leaves(t, p, p + |Render(v, depth, fmt)|, Compact(v))
    decreases v, 1
  {
    hide Leaves, RenderItems, RenderMembers, Escaped, Has;
    match v
    case Null => LeavesPlain(t, p, NULL_TEXT);
    case False => LeavesPlain(t, p, FALSE_TEXT);
    case True => LeavesPlain(t, p, TRUE_TEXT);
    case Number(n) => LeavesPlain(t, p, Decimal(n));
    case String(s) => LeavesQuote(t, p, s);
    case Array(items) =>
      var body := RenderItems(items, depth + 1, fmt);
      HasParts(t, p, [LBRACKET], body + [RBRACKET]);
      HasParts(t, p + 1, body, [RBRACKET]);
      LeavesPlain(t, p, [LBRACKET]);
      MinifyRenderedItems(t, p + 1, items, depth + 1, fmt);
      LeavesPlain(t, p + 1 + |body|, [RBRACKET]);
      CompactItems(items, 0, 1);
      var c := RenderItems(items, 0, false);
      Joins(t, p + 1, p + 1 + |body|, p + 2 + |body|, c, [RBRACKET]);
      Joins(t, p, p + 1, p + 2 + |body|, [LBRACKET], c + [RBRACKET]);
    case Object(members) => MinifyRenderedObject(t, p, members, depth, fmt);
  }

  lemma {:induction false} MinifyRenderedItems(t: seq<byte>, p: nat, s: seq<Json>, depth: nat, fmt: bool)
    requires Has(t, p, RenderItems(s, depth, fmt))
    ensures Leaves(t, p, p + |RenderItems(s, depth, fmt)|, RenderItems(s, 0, false))
    decreases s, 0
  {
    hide Leaves, Render, Has;
    if s == [] {
      LeavesPlain(t, p, []);
    } else if |s| == 1 {
      MinifyRendered(t, p, s[0], depth, fmt);
    } else {
      var r, sep, rest := Render(s[0], depth, fmt), Separator(fmt), RenderItems(s[1..], depth, fmt);
      var e := p + |r|;
      var q := e + |sep|;
      ItemsLayout(t, p, s, depth, fmt);
      MinifyRendered(t, p, s[0], depth, fmt);
      MinifySeparator(t, e, fmt);
      MinifyRenderedItems(t, q, s[1..], depth, fmt);
      var c := RenderItems(s[1..], 0, false);
      Joins(t, e, q, q + |rest|, [COMMA], c);
      Joins(t, p, e, q + |rest|, Compact(s[0]), [COMMA] + c);
    }
  }

  lemma MinifySeparator(t: seq<byte>, p: nat, fmt: bool)
    requires Has(t, p, Separator(fmt))
    ensures Leaves(t, p, p + |Separator(fmt)|, [COMMA])
  {
    hide Leaves;
    if fmt {
      assert Separator(fmt) == [COMMA] + [SPACE];
      HasParts(t, p, [COMMA], [SPACE]);
      LeavesPlain(t, p, [COMMA]);
      LeavesGap(t, p + 1, [SPACE]);
      Joins(t, p, p + 1, p + 2, [COMMA], []);
      assert [COMMA] + [] == [COMMA];
    } else {
      LeavesPlain(t, p, [COMMA]);
    }
  }

  lemma {:induction false} MinifyRenderedObject(t: seq<byte>, p: nat, members: seq<Member>, depth: nat, fmt: bool)
    requires Has(t, p, Render(Object(members), depth, fmt))
    ensures Leaves(t, p, p + |Render(Object(members), depth, fmt)|, Compact(Object(members)))
    decreases members, 2
  {
    hide Leaves, Has, RenderMembers;
    var lf, body, tail := LineFeed(fmt), RenderMembers(members, depth + 1, fmt), CloseIndent(members, depth, fmt);
    var q := p + 1 + |lf|;
    var e := q + |body|;
    var c := e + |tail|;
    ObjectLayout(t, p, members, depth, fmt);
    LeavesPlain(t, p, [LBRACE]);
    LeavesGap(t, p + 1, lf);
    MinifyRenderedMembers(t, q, members, depth + 1, fmt);
    LeavesGap(t, e, tail);
    LeavesPlain(t, c, [RBRACE]);
    CompactMembers(members, 0, 1);
    var w := RenderMembers(members, 0, false);
    Joins(t, e, c, c + 1, [], [RBRACE]);
    Joins(t, q, e, c + 1, w, [] + [RBRACE]);
    Joins(t, p + 1, q, c + 1, [], w + ([] + [RBRACE]));
    Joins(t, p, p + 1, c + 1, [LBRACE], [] + (w + ([] + [RBRACE])));
    assert [LBRACE] + ([] + (w + ([] + [RBRACE]))) == Compact(Object(members));
  }

  lemma {:induction false} MinifyRenderedMembers(t: seq<byte>, p: nat, s: seq<Member>, depth: nat, fmt: bool)
    requires Has(t, p, RenderMembers(s, depth, fmt))
    ensures Leaves(t, p, p + |RenderMembers(s, depth, fmt)|, RenderMembers(s, 0, false))
    decreases s, 1
  {
    hide Leaves, Has, RenderMember;
    if s == [] {
      LeavesPlain(t, p, []);
    } else {
      var m, lf, comma, rest := RenderMember(s[0], depth, fmt), LineFeed(fmt), CommaAfter(s),
        RenderMembers(s[1..], depth, fmt);
      var e := p + |m|;
      var q := e + |comma|;
      var r := q + |lf|;
      MembersLayout(t, p, s, depth, fmt);
      MinifyRenderedMember(t, p, s[0], depth, fmt);
      LeavesPlain(t, e, comma);
      LeavesGap(t, q, lf);
      MinifyRenderedMembers(t, r, s[1..], depth, fmt);
      var w, wm := RenderMembers(s[1..], 0, false), RenderMember(s[0], 0, false);
      Joins(t, q, r, r + |rest|, [], w);
      Joins(t, e, q, r + |rest|, comma, [] + w);
      Joins(t, p, e, r + |rest|, wm, comma + ([] + w));
    }
  }

  lemma {:induction false} MinifyRenderedMember(t: seq<byte>, p: nat, m: Member, depth: nat, fmt: bool)
    requires Has(t, p, RenderMember(m, depth, fmt))
    ensures Leaves(t, p, p + |RenderMember(m, depth, fmt)|, RenderMember(m, 0, false))
    decreases m, 2
  {
    hide Leaves, Has, Render, Quote;
    var tabs, key, gap, v := Indent(depth, fmt), Quote(m.key), Indent(1, fmt), Render(m.value, depth, fmt);
    var q := p + |tabs|;
    var k := q + |key|;
    var e := k + 1 + |gap|;
    MemberLayout(t, p, m, depth, fmt);
    LeavesGap(t, p, tabs);
    LeavesQuote(t, q, m.key);
    LeavesPlain(t, k, [COLON]);
    LeavesGap(t, k + 1, gap);
    MinifyRendered(t, e, m.value, depth, fmt);
    var w := Compact(m.value);
    Joins(t, k + 1, e, e + |v|, [], w);
    Joins(t, k, k + 1, e + |v|, [COLON], [] + w);
    Joins(t, q, k, e + |v|, key, [COLON] + ([] + w));
    Joins(t, p, q, e + |v|, [], key + ([COLON] + ([] + w)));
    assert RenderMember(m, 0, false) == [] + (key + ([COLON] + ([] + w)));
  }

  /** cJSON_Minify of cJSON_Print is cJSON_PrintUnformatted, and a compact text is left as it is. */
  lemma MinifyPrint(v: Json, depth: nat, fmt: bool)
    ensures Minify(Render(v, depth, fmt), 0) == Minified(Compact(v))
  {
    hide Render, Minify;
    var t := Render(v, depth, fmt);
    assert t[0..0 + |t|] == t;
    MinifyRendered(t, 0, v, depth, fmt);
    MinifyEnds(t);
    assert Compact(v) + [] == Compact(v);
  }
}
