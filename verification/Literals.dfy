/**
  String literals: what parse_string reads (section 7 of RFC 8259) and what
  print_string_ptr writes, with the two-pass methods proved against them.
 */
module Literals {
  import opened Bytes
  import opened CStrings
  import opened Utf

  // ----- Reading

  /** One element of a literal's body: a byte that stands for itself, or a UTF-16 code unit. */
  datatype Token = Plain(b: byte) | Unit16(u: nat)

  datatype Literal = Closed(tokens: seq<Token>, end: nat) | Open

  function Cons(k: Token, rest: Literal): (r: Literal)
    ensures r.Closed? <==> rest.Closed?
  {
    if rest.Closed? then Closed([k] + rest.tokens, rest.end) else Open
  }

  /** The byte a two-character escape stands for. */
  function Named(c: byte): (b: byte) {
    if c == LOWER_B then BS else if c == LOWER_F then FF else if c == LOWER_N then LF
    else if c == LOWER_R then CR else if c == LOWER_T then TAB else c
  }

  /** The tokens from `p`, inside a literal, to the closing quote; `end` is just past the quote.
      `Open` when the quote is missing or an escape is cut short or malformed. */
  function Lex(t: seq<byte>, p: nat): (r: Literal)
    ensures r.Closed? ==> p < r.end <= |t| && t[r.end - 1] == QUOTE
    decreases |t| - p
  {
    if p >= |t| then Open
    else if t[p] == QUOTE then Closed([], p + 1)
    else if t[p] != BACKSLASH then Cons(Plain(t[p]), Lex(t, p + 1))
    else if p + 1 >= |t| then Open
    else if t[p + 1] != LOWER_U then Cons(Plain(Named(t[p + 1])), Lex(t, p + 2))
    else if HasHex4(t, p + 2) then Cons(Unit16(Unit(t, p + 2)), Lex(t, p + 6))
    else Open
  }

  /** The bytes a token sequence stands for: units become UTF-8. A zero unit and a lone low surrogate
      stand for nothing, a high surrogate takes a following unit with it, and the two count only if
      they form a pair. */
  function Meaning(k: seq<Token>): (s: seq<byte>)
    requires forall i :: 0 <= i < |k| && k[i].Unit16? ==> k[i].u < 0x10000
    decreases |k|
  {
    if k == [] then []
    else if k[0].Plain? then [k[0].b] + Meaning(k[1..])
    else if k[0].u == 0 || IsLow(k[0].u) then Meaning(k[1..])
    else if !IsHigh(k[0].u) then Encode(k[0].u) + Meaning(k[1..])
    else if |k| == 1 || k[1].Plain? then Meaning(k[1..])
    else if !IsLow(k[1].u) then Meaning(k[2..])
    else Encode(Pair(k[0].u, k[1].u)) + Meaning(k[2..])
  }

  /** Bytes the first pass counts for a token: an escape counts once, each hex digit once more. */
  function Cost(k: seq<Token>): (n: nat) {
    if k == [] then 0 else (if k[0].Plain? then 1 else 5) + Cost(k[1..])
  }

  lemma {:induction false} LexUnits(t: seq<byte>, p: nat)
    requires Lex(t, p).Closed?
    ensures forall i :: 0 <= i < |Lex(t, p).tokens| && Lex(t, p).tokens[i].Unit16? ==> Lex(t, p).tokens[i].u < 0x10000
    decreases |t| - p
  {
    if t[p] != QUOTE {
      LexUnits(t, if t[p] != BACKSLASH then p + 1 else if t[p + 1] != LOWER_U then p + 2 else p + 6);
    }
  }

  /** The text of the literal whose body starts at `p`. */
  function Text(t: seq<byte>, p: nat): (s: seq<byte>)
    requires Lex(t, p).Closed?
  {
    LexUnits(t, p);
    Meaning(Lex(t, p).tokens)
  }

  lemma {:induction false} MeaningFits(k: seq<Token>)
    requires forall i :: 0 <= i < |k| && k[i].Unit16? ==> k[i].u < 0x10000
    ensures |Meaning(k)| <= Cost(k)
    decreases |k|
  {
    if k == [] {
    } else if |k| > 1 && k[0].Unit16? && IsHigh(k[0].u) && k[1].Unit16? {
      assert k[1..][1..] == k[2..];
      MeaningFits(k[2..]);
    } else {
      MeaningFits(k[1..]);
    }
  }

  /** Nothing a literal stands for contains a terminator. */
  lemma {:induction false} MeaningNulFree(k: seq<Token>)
    requires forall i :: 0 <= i < |k| ==> if k[i].Unit16? then k[i].u < 0x10000 else k[i].b != NUL
    ensures NulFree(Meaning(k))
    decreases |k|
  {
    if k == [] {
    } else if |k| > 1 && k[0].Unit16? && IsHigh(k[0].u) && k[1].Unit16? {
      MeaningNulFree(k[2..]);
      if IsLow(k[1].u) {
        PairIsInverse(k[0].u, k[1].u, 0);
        EncodeIsWellFormed(Pair(k[0].u, k[1].u));
      }
    } else {
      MeaningNulFree(k[1..]);
      if k[0].Unit16? && k[0].u != 0 && !IsLow(k[0].u) && !IsHigh(k[0].u) {
        EncodeIsWellFormed(k[0].u);
      }
    }
  }

  lemma {:induction false} LexPlainNonNul(t: seq<byte>, p: nat)
    requires Lex(t, p).Closed? && NulFree(t)
    ensures forall i :: 0 <= i < |Lex(t, p).tokens| && Lex(t, p).tokens[i].Plain? ==> Lex(t, p).tokens[i].b != NUL
    decreases |t| - p
  {
    if t[p] != QUOTE {
      LexPlainNonNul(t, if t[p] != BACKSLASH then p + 1 else if t[p + 1] != LOWER_U then p + 2 else p + 6);
    }
  }

  lemma TextNulFree(t: seq<byte>, p: nat)
    requires Lex(t, p).Closed? && NulFree(t)
    ensures NulFree(Text(t, p))
  {
    LexUnits(t, p);
    LexPlainNonNul(t, p);
    MeaningNulFree(Lex(t, p).tokens);
  }

  /** The first pass: step to the next quote, skipping the byte after each backslash. */
  function Measure(t: seq<byte>, p: nat): (r: (nat, nat))
    decreases |t| - p
  {
    if p >= |t| || t[p] == QUOTE then (0, p)
    else
      var (len, end) := Measure(t, if t[p] == BACKSLASH then p + 2 else p + 1);
      (len + 1, end)
  }

  /** The first pass takes hexadecimal digits for ordinary bytes. */
  lemma MeasureHex(t: seq<byte>, p: nat)
    requires HasHex4(t, p)
    ensures Measure(t, p) == (4 + Measure(t, p + 4).0, Measure(t, p + 4).1)
  {
    assert Measure(t, p + 2) == (2 + Measure(t, p + 4).0, Measure(t, p + 4).1);
  }

  /** Both passes meet at the same closing quote, and the first reserves room for all the second writes. */
  lemma {:induction false} PassesAgree(t: seq<byte>, p: nat)
    requires Lex(t, p).Closed?
    ensures Measure(t, p) == (Cost(Lex(t, p).tokens), Lex(t, p).end - 1)
    ensures |Text(t, p)| <= Measure(t, p).0
    decreases |t| - p
  {
    hide Meaning;
    LexUnits(t, p);
    MeaningFits(Lex(t, p).tokens);
    if t[p] == QUOTE {
    } else if t[p] != BACKSLASH {
      PassesAgree(t, p + 1);
    } else if t[p + 1] != LOWER_U {
      PassesAgree(t, p + 2);
    } else {
      PassesAgree(t, p + 6);
      MeasureHex(t, p + 2);
    }
  }

  /** The first loop of parse_string. */
  method MeasureLiteral(t: seq<byte>, start: nat) returns (len: nat)
    requires Lex(t, start).Closed? && NulFree(t)
    ensures len == Measure(t, start).0
  {
    PassesAgree(t, start);
    var ptr := start;
    len := 0;
    while At(t, ptr) != QUOTE && At(t, ptr) != NUL
      invariant ptr <= |t|
      invariant Measure(t, start) == (len + Measure(t, ptr).0, Measure(t, ptr).1)
      decreases |t| - ptr
    {
      len := len + 1;
      if t[ptr] == BACKSLASH {
        ptr := ptr + 1;
      }
      ptr := ptr + 1;
      MeasureEnds(t, ptr);
    }
  }

  /** parse_string, from behind the opening quote: count, allocate, decode. */
  method DecodeLiteral(t: seq<byte>, start: nat) returns (out: array<byte>, end: nat)
    requires Lex(t, start).Closed? && NulFree(t)
    ensures fresh(out) && out.Length == Measure(t, start).0 + 1
    ensures IsCString(out, Text(t, start))
    ensures end == Lex(t, start).end
  {
    hide Lex, Text, Meaning, Measure;
    PassesAgree(t, start);
    var ptr, ptr2 := start, 0;
    var len := MeasureLiteral(t, start);
    out := new byte[len + 1];
    ghost var text := Text(t, start);
    TextNulFree(t, start);
    while At(t, ptr) != QUOTE && At(t, ptr) != NUL
      invariant ptr < |t| && Lex(t, ptr).Closed? && Lex(t, ptr).end == Lex(t, start).end
      invariant 0 <= ptr2 && ptr2 + |Text(t, ptr)| == |text| <= len && out.Length == len + 1
      invariant out[..ptr2] + Text(t, ptr) == text
      decreases |t| - ptr
    {
      LexShape(t, ptr);
      if t[ptr] != BACKSLASH {
        StepPlain(t, ptr);
        out[ptr2] := t[ptr];
        assert out[..ptr2 + 1] == out[..ptr2] + [t[ptr]];
        ptr2, ptr := ptr2 + 1, ptr + 1;
      } else if t[ptr + 1] != LOWER_U {
        StepPlain(t, ptr);
        out[ptr2] := Named(t[ptr + 1]);
        assert out[..ptr2 + 1] == out[..ptr2] + [Named(t[ptr + 1])];
        ptr2, ptr := ptr2 + 1, ptr + 2;
      } else {
        ghost var before := out[..ptr2] + Text(t, ptr);
        ptr, ptr2 := DecodeUnit(t, ptr, out, ptr2);
        assert |out[..ptr2] + Text(t, ptr)| == |before|;
      }
    }
    LexShape(t, ptr);
    out[ptr2] := NUL;
    end := ptr + 1;
  }

  /** The case of a `\u` escape at `ptr`: transcode UTF-16 to UTF-8, or drop what is no code point. */
  method DecodeUnit(t: seq<byte>, ptr: nat, out: array<byte>, ptr2: nat) returns (next: nat, w: nat)
    requires Lex(t, ptr).Closed? && t[ptr] == BACKSLASH && t[ptr + 1] == LOWER_U
    requires ptr2 + |Text(t, ptr)| <= out.Length
    modifies out
    ensures ptr < next < |t| && Lex(t, next).Closed? && Lex(t, next).end == Lex(t, ptr).end
    ensures ptr2 <= w && w + |Text(t, next)| == ptr2 + |Text(t, ptr)|
    ensures out[..w] + Text(t, next) == old(out[..ptr2]) + Text(t, ptr)
  {
    hide Lex, Text, Meaning, Encode, Unit, HasHex4, Pair;
    StepUnit(t, ptr);
    LexShape(t, ptr + 6);
    next, w := ptr + 6, ptr2;
    var uc := ParseHex4(t, ptr + 2);
    if IsLow(uc) || uc == 0 {
      return;
    }
    if IsHigh(uc) {
      if At(t, ptr + 6) != BACKSLASH || At(t, ptr + 7) != LOWER_U {
        return;
      }
      var uc2 := ParseHex4(t, ptr + 8);
      next := ptr + 12;
      LexShape(t, ptr + 12);
      if !IsLow(uc2) {
        return;
      }
      PairIsInverse(uc, uc2, 0);
      uc := Pair(uc, uc2);
    }
    ghost var pre, enc, rest := out[..ptr2], Encode(uc), Text(t, next);
    assert Text(t, ptr) == enc + rest;
    var len := WriteUtf8(out, ptr2, uc);
    w := ptr2 + len;
    assert out[..w] == pre + enc;
    assert pre + enc + rest == pre + (enc + rest);
  }

  lemma {:induction false} MeasureEnds(t: seq<byte>, p: nat)
    ensures Measure(t, p).1 >= p
    decreases |t| - p
  {
    if !(p >= |t| || t[p] == QUOTE) {
      MeasureEnds(t, if t[p] == BACKSLASH then p + 2 else p + 1);
    }
  }

  lemma LexShape(t: seq<byte>, p: nat)
    requires Lex(t, p).Closed?
    ensures p < |t| && (t[p] == BACKSLASH ==> p + 1 < |t|)
    ensures t[p] == QUOTE ==> Lex(t, p).end == p + 1 && Text(t, p) == []
  {
  }

  lemma LexQuote(t: seq<byte>, p: nat)
    requires p < |t| && t[p] == QUOTE
    ensures Lex(t, p).Closed? && Lex(t, p).end == p + 1 && Text(t, p) == []
  {
  }

  lemma StepPlain(t: seq<byte>, p: nat)
    requires Lex(t, p).Closed? && t[p] != QUOTE && !(t[p] == BACKSLASH && t[p + 1] == LOWER_U)
    ensures t[p] != BACKSLASH ==>
              Lex(t, p + 1).Closed? && Lex(t, p + 1).end == Lex(t, p).end && Text(t, p) == [t[p]] + Text(t, p + 1)
    ensures t[p] == BACKSLASH ==>
              p + 1 < |t| && Lex(t, p + 2).Closed? && Lex(t, p + 2).end == Lex(t, p).end
              && Text(t, p) == [Named(t[p + 1])] + Text(t, p + 2)
  {
    var rest := Lex(t, if t[p] == BACKSLASH then p + 2 else p + 1).tokens;
    assert Lex(t, p).tokens[1..] == rest;
  }

  /** What one `\u` escape contributes, in terms of the literal behind it. */
  lemma StepUnit(t: seq<byte>, p: nat)
    requires Lex(t, p).Closed? && t[p] == BACKSLASH && t[p + 1] == LOWER_U
    ensures HasHex4(t, p + 2) && Lex(t, p + 6).Closed? && Lex(t, p + 6).end == Lex(t, p).end
    ensures var uc := Unit(t, p + 2);
            var paired := At(t, p + 6) == BACKSLASH && At(t, p + 7) == LOWER_U;
            if uc == 0 || IsLow(uc) || (IsHigh(uc) && !paired) then
              Text(t, p) == Text(t, p + 6)
            else if !IsHigh(uc) then
              Text(t, p) == Encode(uc) + Text(t, p + 6)
            else
              && HasHex4(t, p + 8) && Lex(t, p + 12).Closed? && Lex(t, p + 12).end == Lex(t, p).end
              && if IsLow(Unit(t, p + 8)) then
                   PairIsInverse(uc, Unit(t, p + 8), 0);
                   Text(t, p) == Encode(Pair(uc, Unit(t, p + 8))) + Text(t, p + 12)
                 else
                   Text(t, p) == Text(t, p + 12)
  {
    LexUnits(t, p);
    var k := Lex(t, p).tokens;
    assert k[1..] == Lex(t, p + 6).tokens;
    if At(t, p + 6) == BACKSLASH && At(t, p + 7) == LOWER_U {
      assert k[1..][1..] == Lex(t, p + 12).tokens;
      assert k[2..] == k[1..][1..];
    } else if k[1..] != [] {
      assert k[1] == Lex(t, p + 6).tokens[0];
    }
  }

  // ----- Writing

  /** The escaped form of one byte of a string. */
  function EscapeByte(c: byte): (s: seq<byte>)
    ensures 1 <= |s| <= 6
  {
    if c > 31 && c != QUOTE && c != BACKSLASH then [c]
    else if c == BACKSLASH || c == QUOTE then [BACKSLASH, c]
    else if c == BS then [BACKSLASH, LOWER_B]
    else if c == FF then [BACKSLASH, LOWER_F]
    else if c == LF then [BACKSLASH, LOWER_N]
    else if c == CR then [BACKSLASH, LOWER_R]
    else if c == TAB then [BACKSLASH, LOWER_T]
    else [BACKSLASH, LOWER_U, ZERO, ZERO, ZERO + c / 16, HexChar(c % 16)]
  }

  function Escaped(s: seq<byte>): (r: seq<byte>)
  {
    if s == [] then [] else EscapeByte(s[0]) + Escaped(s[1..])
  }

  /** The literal printed for a string. */
  function Quote(s: seq<byte>): (r: seq<byte>)
  {
    [QUOTE] + Escaped(s) + [QUOTE]
  }

  lemma {:induction false} EscapedAppend(s: seq<byte>, c: byte)
    ensures Escaped(s + [c]) == Escaped(s) + EscapeByte(c)
  {
    if s == [] {
      assert Escaped([c]) == EscapeByte(c) + Escaped([]);
    } else {
      assert (s + [c])[1..] == s[1..] + [c];
      EscapedAppend(s[1..], c);
    }
  }

  /** Reading a printed literal gives back the string: every NUL-free string, every control character
      and every byte above 127 included. */
  lemma {:induction false} LexEscaped(t: seq<byte>, p: nat, s: seq<byte>)
    requires NulFree(s) && Has(t, p, Escaped(s) + [QUOTE])
    ensures Lex(t, p).Closed? && Lex(t, p).end == p + |Escaped(s)| + 1
    ensures Text(t, p) == s
    decreases |s|
  {
    hide Lex, Text, Meaning, EscapeByte;
    if s == [] {
      assert Escaped(s) + [QUOTE] == [QUOTE];
      HasByte(t, p, [QUOTE], 0);
      LexQuote(t, p);
    } else {
      var c, e := s[0], EscapeByte(s[0]);
      assert Escaped(s) + [QUOTE] == e + (Escaped(s[1..]) + [QUOTE]);
      HasParts(t, p, e, Escaped(s[1..]) + [QUOTE]);
      LexEscaped(t, p + |e|, s[1..]);
      LexEscape(t, p, c);
      assert s == [c] + s[1..];
    }
  }

  /** One escaped byte in front of a literal's remainder. */
  lemma {:induction false} LexEscape(t: seq<byte>, p: nat, c: byte)
    requires c != NUL && Has(t, p, EscapeByte(c)) && Lex(t, p + |EscapeByte(c)|).Closed?
    ensures Lex(t, p).Closed? && Lex(t, p).end == Lex(t, p + |EscapeByte(c)|).end
    ensures Text(t, p) == [c] + Text(t, p + |EscapeByte(c)|)
  {
    var e := EscapeByte(c);
    HasByte(t, p, e, 0);
    if |e| == 1 {
      StepPlain(t, p);
    } else if |e| == 2 {
      HasByte(t, p, e, 1);
      StepPlain(t, p);
    } else {
      LexUnicodeEscape(t, p, c);
    }
  }

  lemma LexUnicodeEscape(t: seq<byte>, p: nat, c: byte)
    requires |EscapeByte(c)| == 6 && c != NUL && Has(t, p, EscapeByte(c)) && Lex(t, p + 6).Closed?
    ensures Lex(t, p).Closed? && Lex(t, p).end == Lex(t, p + 6).end
    ensures Text(t, p) == [c] + Text(t, p + 6)
  {
    var e := EscapeByte(c);
    HasByte(t, p, e, 0);
    HasByte(t, p, e, 1);
    HasByte(t, p, e, 2);
    HasByte(t, p, e, 3);
    HasByte(t, p, e, 4);
    HasByte(t, p, e, 5);
    assert HasHex4(t, p + 2) && Unit(t, p + 2) == c;
    StepUnit(t, p);
    assert Encode(c) == [c];
  }

  lemma QuoteRoundTrip(s: seq<byte>)
    requires NulFree(s)
    ensures Lex(Quote(s), 1).Closed? && Lex(Quote(s), 1).end == |Quote(s)| && Text(Quote(s), 1) == s
  {
    var t := Quote(s);
    assert t[1..1 + |Escaped(s)| + 1] == Escaped(s) + [QUOTE];
    LexEscaped(t, 1, s);
  }

  lemma EscapedEmpty()
    ensures Escaped([]) == []
  {
  }

  /** The first loop of print_string_ptr. */
  method MeasureString(str: array<byte>, ghost s: seq<byte>) returns (len: nat)
    requires IsCString(str, s)
    ensures len == |Escaped(s)|
  {
    hide Escaped;
    var ptr := 0;
    len := 0;
    EscapedEmpty();
    assert s[..|s|] == s;
    while str[ptr] != NUL
      invariant 0 <= ptr <= |s| && len == |Escaped(s[..ptr])|
      decreases |s| - ptr
    {
      var token := str[ptr];
      len := len + 1;
      if token in {QUOTE, BACKSLASH, BS, FF, LF, CR, TAB} {
        len := len + 1;
      } else if token < 32 {
        len := len + 5;
      }
      assert s[..ptr + 1] == s[..ptr] + [token];
      EscapedAppend(s[..ptr], token);
      ptr := ptr + 1;
    }
  }

  /** print_string_ptr: count, allocate, write. The buffer is filled to its last byte. */
  method PrintString(str: array<byte>, ghost s: seq<byte>) returns (out: array<byte>)
    requires IsCString(str, s)
    ensures fresh(out) && out[..] == Quote(s) + [NUL]
  {
    hide Escaped, EscapeByte;
    var len := MeasureString(str, s);
    EscapedEmpty();
    assert s[..|s|] == s;
    out := new byte[len + 3];
    var ptr, ptr2 := 0, 1;
    out[0] := QUOTE;
    while str[ptr] != NUL
      invariant 0 <= ptr <= |s| && ptr2 == 1 + |Escaped(s[..ptr])|
      invariant ptr2 <= len + 1
      invariant out[..ptr2] == [QUOTE] + Escaped(s[..ptr])
      decreases |s| - ptr
    {
      var token := str[ptr];
      assert s[..ptr + 1] == s[..ptr] + [token];
      EscapedAppend(s[..ptr], token);
      EscapedPrefix(s, ptr + 1);
      ghost var before := out[..ptr2];
      ptr2 := PutEscape(out, ptr2, token);
      assert out[..ptr2] == before + EscapeByte(token);
      ptr := ptr + 1;
    }
    out[ptr2] := QUOTE;
    out[ptr2 + 1] := NUL;
    assert out[..] == out[..ptr2] + [QUOTE, NUL];
  }

  /** The body of the writing loop. */
  method PutEscape(out: array<byte>, at: nat, token: byte) returns (ptr2: nat)
    requires at + |EscapeByte(token)| <= out.Length
    modifies out
    ensures ptr2 == at + |EscapeByte(token)|
    ensures forall k :: 0 <= k < at ==> out[k] == old(out[k])
    ensures forall k :: at <= k < ptr2 ==> out[k] == EscapeByte(token)[k - at]
  {
    ptr2 := at;
    if token > 31 && token != QUOTE && token != BACKSLASH {
      out[ptr2] := token;
      ptr2 := ptr2 + 1;
    } else {
      out[ptr2] := BACKSLASH;
      ptr2 := ptr2 + 1;
      if token == BACKSLASH || token == QUOTE {
        out[ptr2] := token;
        ptr2 := ptr2 + 1;
      } else if token == BS {
        out[ptr2] := LOWER_B;
        ptr2 := ptr2 + 1;
      } else if token == FF {
        out[ptr2] := LOWER_F;
        ptr2 := ptr2 + 1;
      } else if token == LF {
        out[ptr2] := LOWER_N;
        ptr2 := ptr2 + 1;
      } else if token == CR {
        out[ptr2] := LOWER_R;
        ptr2 := ptr2 + 1;
      } else if token == TAB {
        out[ptr2] := LOWER_T;
        ptr2 := ptr2 + 1;
      } else {
        out[ptr2], out[ptr2 + 1], out[ptr2 + 2] := LOWER_U, ZERO, ZERO;
        out[ptr2 + 3], out[ptr2 + 4] := ZERO + token / 16, HexChar(token % 16);
        ptr2 := ptr2 + 5;
      }
    }
  }

  lemma {:induction false} EscapedPrefix(s: seq<byte>, k: nat)
    requires k <= |s|
    ensures |Escaped(s[..k])| <= |Escaped(s)|
    decreases |s| - k
  {
    if k < |s| {
      assert s[..k + 1] == s[..k] + [s[k]];
      EscapedAppend(s[..k], s[k]);
      EscapedPrefix(s, k + 1);
    } else {
      assert s[..k] == s;
    }
  }
}
