/**
  UTF-16 escapes and the UTF-8 written for them: parse_hex4 and the transcoding
  arithmetic of parse_string. The bit operations of the source are written as
  integer arithmetic; `ContinuationBits`, `LeadBits` and `PairBits` state the
  agreement for every machine word.
 */
module Utf {
  import opened Bytes

  // ----- Four hexadecimal digits

  predicate IsHex(c: byte) {
    ZERO <= c <= NINE || UPPER_A <= c <= UPPER_F || LOWER_A <= c <= LOWER_F
  }

  function HexDigit(c: byte): (d: nat)
    requires IsHex(c)
    ensures d < 16
  {
    if c <= NINE then c - ZERO else if c <= UPPER_F then 10 + c - UPPER_A else 10 + c - LOWER_A
  }

  /** The lower-case digit that printing writes. */
  function HexChar(d: nat): (c: byte)
    requires d < 16
    ensures IsHex(c) && HexDigit(c) == d
  {
    if d < 10 then ZERO + d else LOWER_A + d - 10
  }

  /** Digits come in the usual order, and letters count alike in both cases. */
  lemma DigitIsItsPlace(d: nat)
    requires d < 16
    ensures HexChar(d) == [48, 49, 50, 51, 52, 53, 54, 55, 56, 57, 97, 98, 99, 100, 101, 102][d]
    ensures d >= 10 ==> HexDigit(HexChar(d) - LOWER_A + UPPER_A) == d
  {
  }

  predicate HasHex4(t: seq<byte>, p: nat) {
    p + 4 <= |t| && IsHex(t[p]) && IsHex(t[p + 1]) && IsHex(t[p + 2]) && IsHex(t[p + 3])
  }

  /** The 16-bit unit that four hexadecimal digits spell. */
  function Unit(t: seq<byte>, p: nat): (h: nat)
    requires HasHex4(t, p)
    ensures h < 0x10000
  {
    HexDigit(t[p]) * 4096 + HexDigit(t[p + 1]) * 256 + HexDigit(t[p + 2]) * 16 + HexDigit(t[p + 3])
  }

  /** A unit is read from its four digits, the most significant one first. */
  lemma UnitFromDigits(u: nat)
    requires u < 0x10000
    ensures var t := [HexChar(u / 0x1000), HexChar(u / 0x100 % 0x10), HexChar(u / 0x10 % 0x10), HexChar(u % 0x10)];
            HasHex4(t, 0) && Unit(t, 0) == u
  {
    assert u / 0x100 == u / 0x1000 * 0x10 + u / 0x100 % 0x10;
    assert u / 0x10 == u / 0x100 * 0x10 + u / 0x10 % 0x10;
  }

  /** parse_hex4: accumulate four digits, giving up with 0 at the first other byte. */
  method ParseHex4(t: seq<byte>, p: nat) returns (h: nat)
    requires p <= |t|
    ensures h == if HasHex4(t, p) then Unit(t, p) else 0
  {
    var str := p;
    if !IsHex(At(t, str)) { return 0; }
    h := HexDigit(t[str]);
    h, str := h * 16, str + 1;
    if !IsHex(At(t, str)) { return 0; }
    h := h + HexDigit(t[str]);
    h, str := h * 16, str + 1;
    if !IsHex(At(t, str)) { return 0; }
    h := h + HexDigit(t[str]);
    h, str := h * 16, str + 1;
    if !IsHex(At(t, str)) { return 0; }
    h := h + HexDigit(t[str]);
  }

  // ----- UTF-16 units

  predicate IsHigh(u: nat) { 0xD800 <= u <= 0xDBFF }

  predicate IsLow(u: nat) { 0xDC00 <= u <= 0xDFFF }

  /** A code point that UTF-8 may carry: section 3 of RFC 3629. */
  predicate IsScalar(cp: nat) { cp < 0x110000 && !(0xD800 <= cp <= 0xDFFF) }

  /** The code point the source computes for a surrogate pair. */
  function Pair(hi: nat, lo: nat): (cp: nat)
  {
    0x10000 + (hi % 0x400) * 0x400 + lo % 0x400
  }

  /** The pair that section 2.1 of RFC 2781 prescribes for a code point above the basic plane. */
  function ToHigh(cp: nat): nat
    requires 0x10000 <= cp < 0x110000
  {
    0xD800 + (cp - 0x10000) / 0x400
  }

  function ToLow(cp: nat): nat
    requires 0x10000 <= cp < 0x110000
  {
    0xDC00 + (cp - 0x10000) % 0x400
  }

  /** Decoding a pair is the inverse of encoding it, on exactly the code points above the basic plane. */
  lemma {:induction false} PairIsInverse(hi: nat, lo: nat, cp: nat)
    requires IsHigh(hi) && IsLow(lo)
    ensures 0x10000 <= Pair(hi, lo) < 0x110000 && IsScalar(Pair(hi, lo))
    ensures ToHigh(Pair(hi, lo)) == hi && ToLow(Pair(hi, lo)) == lo
    ensures 0x10000 <= cp < 0x110000 ==>
              IsHigh(ToHigh(cp)) && IsLow(ToLow(cp)) && Pair(ToHigh(cp), ToLow(cp)) == cp
  {
    assert hi % 0x400 == hi - 0xD800;
    assert lo % 0x400 == lo - 0xDC00;
    if 0x10000 <= cp < 0x110000 {
      var d := cp - 0x10000;
      assert ToHigh(cp) % 0x400 == d / 0x400;
      assert ToLow(cp) % 0x400 == d % 0x400;
    }
  }

  // ----- UTF-8

  /** Number of bytes the source uses for a code point. */
  function Width(cp: nat): (n: nat)
    ensures 1 <= n <= 4
  {
    if cp < 0x80 then 1 else if cp < 0x800 then 2 else if cp < 0x10000 then 3 else 4
  }

  function Continuation(x: nat): (b: byte) { 0x80 + x % 0x40 }

  /** The byte sequence the source writes for a code point. */
  function Encode(cp: nat): (s: seq<byte>)
    requires cp < 0x110000
    ensures |s| == Width(cp)
  {
    if cp < 0x80 then [cp]
    else if cp < 0x800 then [0xC0 + cp / 0x40, Continuation(cp)]
    else if cp < 0x10000 then [0xE0 + cp / 0x1000, Continuation(cp / 0x40), Continuation(cp)]
    else [0xF0 + cp / 0x40000, Continuation(cp / 0x1000), Continuation(cp / 0x40), Continuation(cp)]
  }

  predicate IsTail(b: byte) { 0x80 <= b <= 0xBF }

  /** One character in the UTF-8 syntax of section 4 of RFC 3629. */
  predicate WellFormed(s: seq<byte>) {
    (|s| == 1 && s[0] <= 0x7F)
    || (|s| == 2 && 0xC2 <= s[0] <= 0xDF && IsTail(s[1]))
    || (|s| == 3 && IsTail(s[1]) && IsTail(s[2])
        && ((s[0] == 0xE0 && 0xA0 <= s[1]) || 0xE1 <= s[0] <= 0xEC
            || (s[0] == 0xED && s[1] <= 0x9F) || 0xEE <= s[0] <= 0xEF))
    || (|s| == 4 && IsTail(s[1]) && IsTail(s[2]) && IsTail(s[3])
        && ((s[0] == 0xF0 && 0x90 <= s[1]) || 0xF1 <= s[0] <= 0xF3 || (s[0] == 0xF4 && s[1] <= 0x8F)))
  }

  /** The code point a byte sequence stands for: section 3 of RFC 3629. */
  function Decode(s: seq<byte>): (cp: int)
    requires 1 <= |s| <= 4
  {
    if |s| == 1 then s[0]
    else if |s| == 2 then (s[0] as int - 0xC0) * 0x40 + (s[1] as int - 0x80)
    else if |s| == 3 then (s[0] as int - 0xE0) * 0x1000 + (s[1] as int - 0x80) * 0x40 + (s[2] as int - 0x80)
    else (s[0] as int - 0xF0) * 0x40000 + (s[1] as int - 0x80) * 0x1000 + (s[2] as int - 0x80) * 0x40
         + (s[3] as int - 0x80)
  }

  /** What is written is well formed and decodes to the code point. */
  lemma {:induction false} EncodeIsWellFormed(cp: nat)
    requires IsScalar(cp)
    ensures WellFormed(Encode(cp)) && Decode(Encode(cp)) == cp
    ensures cp != 0 ==> NulFree(Encode(cp))
  {
    var a := cp / 0x40;
    assert cp == a * 0x40 + cp % 0x40;
    var b := a / 0x40;
    assert a == b * 0x40 + a % 0x40 && b == cp / 0x1000;
    var c := b / 0x40;
    assert b == c * 0x40 + b % 0x40 && c == cp / 0x40000;
  }

  /** Dividing out the last continuation byte. */
  lemma Digits64(q: nat, x: byte)
    requires IsTail(x)
    ensures (q * 0x40 + (x as int - 0x80)) / 0x40 == q
    ensures Continuation(q * 0x40 + (x as int - 0x80)) == x
  {
  }

  /** Every well-formed sequence is what is written for the scalar value it decodes to. */
  lemma {:induction false} WellFormedIsEncode(s: seq<byte>)
    requires WellFormed(s)
    ensures Decode(s) >= 0 && IsScalar(Decode(s)) && Encode(Decode(s)) == s
  {
    var cp := Decode(s);
    if |s| == 2 {
      Digits64(s[0] as int - 0xC0, s[1]);
    } else if |s| == 3 {
      var a := s[0] as int - 0xE0;
      var b := a * 0x40 + (s[1] as int - 0x80);
      assert cp == b * 0x40 + (s[2] as int - 0x80);
      Digits64(a, s[1]);
      Digits64(b, s[2]);
      Quotients(cp);
    } else if |s| == 4 {
      WellFormed4IsEncode(s);
    }
  }

  lemma {:induction false} WellFormed4IsEncode(s: seq<byte>)
    requires WellFormed(s) && |s| == 4
    ensures Decode(s) >= 0 && IsScalar(Decode(s)) && Encode(Decode(s)) == s
  {
    var cp := Decode(s);
    var a := s[0] as int - 0xF0;
    var b := a * 0x40 + (s[1] as int - 0x80);
    var c := b * 0x40 + (s[2] as int - 0x80);
    assert cp == c * 0x40 + (s[3] as int - 0x80);
    Digits64(a, s[1]);
    Digits64(b, s[2]);
    Digits64(c, s[3]);
    Quotients(cp);
  }

  /** A lead byte of the given length followed by continuation bytes, of any value. */
  predicate Shaped(s: seq<byte>) {
    (|s| == 1 && s[0] <= 0x7F)
    || (|s| == 2 && 0xC0 <= s[0] <= 0xDF && IsTail(s[1]))
    || (|s| == 3 && 0xE0 <= s[0] <= 0xEF && IsTail(s[1]) && IsTail(s[2]))
    || (|s| == 4 && 0xF0 <= s[0] <= 0xF7 && IsTail(s[1]) && IsTail(s[2]) && IsTail(s[3]))
  }

  /** No byte sequence of the encoding's shape that denotes the code point is shorter. */
  lemma {:induction false} EncodeIsShortest(cp: nat, s: seq<byte>)
    requires IsScalar(cp) && Shaped(s) && Decode(s) == cp
    ensures |Encode(cp)| <= |s|
    ensures |s| == |Encode(cp)| ==> s == Encode(cp)
  {
    if |s| == |Encode(cp)| {
      WellFormedIsEncode(s);
    }
  }

  // ----- Agreement with the bit operations of the source

  lemma ContinuationBits(uc: bv32)
    ensures (uc | 0x80) & 0xBF == 0x80 + uc % 0x40
    ensures uc >> 6 == uc / 0x40
  {
  }

  lemma LeadBits(uc: bv32)
    requires uc < 0x20
    ensures uc | 0xC0 == 0xC0 + uc
    ensures uc < 0x10 ==> uc | 0xE0 == 0xE0 + uc
    ensures uc < 0x08 ==> uc | 0xF0 == 0xF0 + uc
  {
    assert uc == uc & 0x1F;
  }

  lemma PairBits(uc: bv32, uc2: bv32)
    ensures 0x10000 + (((uc & 0x3FF) << 10) | (uc2 & 0x3FF)) == 0x10000 + (uc % 0x400) * 0x400 + uc2 % 0x400
  {
  }

  /** The switch in parse_string: step over the width, then fill backwards, falling through the cases. */
  method WriteUtf8(out: array<byte>, at: nat, cp: nat) returns (len: nat)
    requires cp < 0x110000 && at + Width(cp) <= out.Length
    modifies out
    ensures len == Width(cp)
    ensures out[at..at + len] == Encode(cp)
    ensures out[..at] == old(out[..at]) && out[at + len..] == old(out[at + len..])
  {
    Quotients(cp);
    len := Width(cp);
    var ptr := at + len;
    var uc := cp;
    if len == 4 {
      ptr := ptr - 1;
      out[ptr], uc := Continuation(uc), uc / 0x40;
    }
    if len >= 3 {
      ptr := ptr - 1;
      out[ptr], uc := Continuation(uc), uc / 0x40;
    }
    if len >= 2 {
      ptr := ptr - 1;
      out[ptr], uc := Continuation(uc), uc / 0x40;
    }
    ptr := ptr - 1;
    out[ptr] := uc + FirstByteMark(len);
  }

  function FirstByteMark(len: nat): (b: byte) {
    if len == 4 then 0xF0 else if len == 3 then 0xE0 else if len == 2 then 0xC0 else 0
  }

  lemma Quotients(cp: nat)
    ensures cp / 0x40 / 0x40 == cp / 0x1000 && cp / 0x1000 / 0x40 == cp / 0x40000
  {
  }
}
