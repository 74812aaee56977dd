/**
  Bytes and C strings.

  A text is the NUL-free sequence of bytes in front of its terminator. Reading
  at the index just past the last byte yields the terminator, and reading any
  further is not possible, so every read in the model stays inside the text.
 */
module Bytes {

  type byte = b: int | 0 <= b < 256

  const NUL: byte := 0
  const BS: byte := 8
  const TAB: byte := 9
  const LF: byte := 10
  const FF: byte := 12
  const CR: byte := 13
  const SPACE: byte := 32
  const QUOTE: byte := 34
  const STAR: byte := 42
  const COMMA: byte := 44
  const MINUS: byte := 45
  const DOT: byte := 46
  const SLASH: byte := 47
  const ZERO: byte := 48
  const ONE: byte := 49
  const NINE: byte := 57
  const COLON: byte := 58
  const UPPER_A: byte := 65
  const UPPER_E: byte := 69
  const UPPER_F: byte := 70
  const LBRACKET: byte := 91
  const BACKSLASH: byte := 92
  const RBRACKET: byte := 93
  const LOWER_A: byte := 97
  const LOWER_B: byte := 98
  const LOWER_E: byte := 101
  const LOWER_F: byte := 102
  const LOWER_L: byte := 108
  const LOWER_N: byte := 110
  const LOWER_R: byte := 114
  const LOWER_S: byte := 115
  const LOWER_T: byte := 116
  const LOWER_U: byte := 117
  const LBRACE: byte := 123
  const RBRACE: byte := 125

  /** No terminator among the bytes. */
  predicate NulFree(s: seq<byte>) {
    forall i :: 0 <= i < |s| ==> s[i] != NUL
  }

  /** The byte read through a pointer `p` bytes into the text. */
  function At(t: seq<byte>, p: nat): (b: byte)
    requires p <= |t|
  {
    if p < |t| then t[p] else NUL
  }

  /** `s` occurs in `t` at index `p`. */
  predicate Has(t: seq<byte>, p: nat, s: seq<byte>) {
    p + |s| <= |t| && t[p..p + |s|] == s
  }

  lemma HasParts(t: seq<byte>, p: nat, a: seq<byte>, b: seq<byte>)
    requires Has(t, p, a + b)
    ensures Has(t, p, a) && Has(t, p + |a|, b)
  {
    var w := t[p..p + |a + b|];
    assert w[..|a|] == a && w[|a|..] == b;
    assert t[p..p + |a|] == w[..|a|];
    assert t[p + |a|..p + |a| + |b|] == w[|a|..];
  }

  lemma HasByte(t: seq<byte>, p: nat, s: seq<byte>, k: nat)
    requires Has(t, p, s) && k < |s|
    ensures p + |s| <= |t| && t[p + k] == s[k]
  {
    assert t[p..p + |s|][k] == t[p + k];
  }

  /** A different first byte rules an occurrence out. */
  lemma HasNot(t: seq<byte>, p: nat, s: seq<byte>)
    requires p <= |t| && s != [] && At(t, p) != s[0]
    ensures !Has(t, p, s)
  {
    assert p + |s| <= |t| ==> t[p..p + |s|][0] == At(t, p);
  }
}
