/**
  What cJSON_Minify takes out: a text is a sequence of blanks, comments, string
  literals and other bytes, and what is left are the literals and the others.
 */
module Pieces {
  import opened Bytes
  import opened Minifier

  /** A block comment is a slash, `body`, and a star with a slash: `body` starts with a star, unless it is empty and
      both share the star. */
  datatype Piece =
    | Gap(b: byte)
    | Line(body: seq<byte>)
    | Block(body: seq<byte>)
    | Literal(body: seq<byte>)
    | Other(b: byte)

  function SpellPiece(p: Piece): (s: seq<byte>)
    ensures |s| >= 1
  {
    match p
    case Gap(b) => [b]
    case Line(body) => [SLASH, SLASH] + body
    case Block(body) => [SLASH] + (body + [STAR, SLASH])
    case Literal(body) => [QUOTE] + (body + [QUOTE])
    case Other(b) => [b]
  }

  function SpellPieces(ps: seq<Piece>): seq<byte> {
    if ps == [] then [] else SpellPiece(ps[0]) + SpellPieces(ps[1..])
  }

  /** Every quote in the body has a backslash of its own. */
  predicate InLiteral(body: seq<byte>)
    decreases |body|
  {
    || body == []
    || (body[0] == BACKSLASH && |body| >= 2 && InLiteral(body[2..]))
    || (body[0] !in {BACKSLASH, QUOTE} && InLiteral(body[1..]))
  }

  /** No star in `s` has a slash behind it, except the last one. */
  predicate EndsAtLast(s: seq<byte>) {
    forall i :: 0 <= i < |s| - 2 ==> !(s[i] == STAR && s[i + 1] == SLASH)
  }

  /** The piece can be followed by the byte `next`, or by the end of the text. */
  predicate FitsBefore(p: Piece, next: byte) {
    match p
    case Gap(b) => b in {SPACE, TAB, CR, LF}
    case Line(body) => (forall i :: 0 <= i < |body| ==> body[i] != LF) && next in {NUL, LF}
    case Block(body) => (body != [] ==> body[0] == STAR) && EndsAtLast(body + [STAR, SLASH])
    case Literal(body) => InLiteral(body)
    case Other(b) => b !in {SPACE, TAB, CR, LF, QUOTE} && !(b == SLASH && next in {SLASH, STAR})
  }

  predicate Fits(ps: seq<Piece>) {
    ps == [] || (FitsBefore(ps[0], At(SpellPieces(ps[1..]), 0)) && Fits(ps[1..]))
  }

  /** The literals and the other bytes. */
  function Rest(ps: seq<Piece>): seq<byte> {
    if ps == [] then []
    else (if ps[0].Literal? || ps[0].Other? then SpellPiece(ps[0]) else []) + Rest(ps[1..])
  }

  // ----- Where comments and literals end

  lemma {:induction false} LineEndIs(t: seq<byte>, p: nat, n: nat)
    requires p <= n <= |t| && (n < |t| ==> t[n] == LF) && forall i :: p <= i < n ==> t[i] != LF
    ensures LineEnd(t, p) == n
    decreases n - p
  {
    if p < n {
      LineEndIs(t, p + 1, n);
    }
  }

  lemma {:induction false} LineHasNoFeed(t: seq<byte>, p: nat)
    requires p <= |t|
    ensures forall i :: p <= i < LineEnd(t, p) ==> t[i] != LF
    ensures LineEnd(t, p) < |t| ==> t[LineEnd(t, p)] == LF
    decreases |t| - p
  {
    if !(p == |t| || t[p] == LF) {
      LineHasNoFeed(t, p + 1);
    }
  }

  lemma {:induction false} CommentEndIs(t: seq<byte>, p: nat, n: nat)
    requires p <= n && n + 2 <= |t| && t[n] == STAR && t[n + 1] == SLASH && EndsAtLast(t[p..n + 2])
    ensures CommentEnd(t, p) == n
    decreases n - p
  {
    if p < n {
      var s, r := t[p..n + 2], t[p + 1..n + 2];
      assert !(s[0] == STAR && s[1] == SLASH);
      forall i | 0 <= i < |r| - 2 ensures !(r[i] == STAR && r[i + 1] == SLASH) {
        assert s[i + 1] == r[i] && s[i + 2] == r[i + 1];
      }
      CommentEndIs(t, p + 1, n);
    }
  }

  lemma EndsOneEarlier(s: seq<byte>)
    requires |s| >= 3 && EndsAtLast(s[1..]) && !(s[0] == STAR && s[1] == SLASH)
    ensures EndsAtLast(s)
  {
    forall i | 0 <= i < |s| - 2 ensures !(s[i] == STAR && s[i + 1] == SLASH) {
      if i > 0 {
        assert s[1..][i - 1] == s[i] && s[1..][i] == s[i + 1];
        assert !(s[1..][i - 1] == STAR && s[1..][i - 1 + 1] == SLASH);
      }
    }
  }

  lemma TwoEnd(s: seq<byte>)
    requires |s| == 2
    ensures EndsAtLast(s)
  {
  }

  lemma {:induction false} CommentEndsFirst(t: seq<byte>, p: nat)
    requires p <= |t| && CommentEnd(t, p) < |t|
    ensures var q := CommentEnd(t, p); q + 2 <= |t| && t[q] == STAR && t[q + 1] == SLASH && EndsAtLast(t[p..q + 2])
    decreases |t| - p
  {
    hide EndsAtLast;
    var q := CommentEnd(t, p);
    if q == p {
      TwoEnd(t[p..q + 2]);
    } else {
      CommentEndsFirst(t, p + 1);
      assert t[p..q + 2][1..] == t[p + 1..q + 2];
      EndsOneEarlier(t[p..q + 2]);
    }
  }

  lemma {:induction false} LiteralEndIs(t: seq<byte>, p: nat, body: seq<byte>)
    requires InLiteral(body) && Has(t, p, body + [QUOTE])
    ensures LiteralEnd(t, p) == p + |body| + 1
    decreases |body|
  {
    var s := body + [QUOTE];
    HasByte(t, p, s, 0);
    if body != [] {
      var k := if body[0] == BACKSLASH then 2 else 1;
      assert s == body[..k] + (body[k..] + [QUOTE]);
      HasParts(t, p, body[..k], body[k..] + [QUOTE]);
      LiteralEndIs(t, p + k, body[k..]);
    }
  }

  lemma {:induction false} LiteralFound(t: seq<byte>, p: nat)
    requires LiteralEnd(t, p) != 0
    ensures p < LiteralEnd(t, p) <= |t| && t[LiteralEnd(t, p) - 1] == QUOTE && InLiteral(t[p..LiteralEnd(t, p) - 1])
    decreases |t| - p
  {
    LiteralStep(t, p);
    var q := LiteralEnd(t, p);
    if t[p] != QUOTE {
      var k := if t[p] == BACKSLASH then 2 else 1;
      LiteralFound(t, p + k);
      assert t[p..q - 1][k..] == t[p + k..q - 1];
    }
  }

  // ----- Exactly the texts made of such pieces

  lemma Cut(t: seq<byte>, p: nat, s: seq<byte>, rest: seq<byte>)
    requires p <= |t| && t[p..] == s + rest
    ensures p + |s| <= |t| && t[p..p + |s|] == s && t[p + |s|..] == rest
    ensures Has(t, p, s) && At(t, p + |s|) == At(rest, 0)
  {
    assert t[p..][..|s|] == s && t[p..][|s|..] == rest;
    if rest != [] {
      assert t[p..][|s|] == rest[0];
    }
  }

  lemma LineGone(t: seq<byte>, p: nat, body: seq<byte>)
    requires NulFree(t) && Has(t, p, [SLASH, SLASH] + body) && (forall i :: 0 <= i < |body| ==> body[i] != LF)
    requires At(t, p + 2 + |body|) in {NUL, LF}
    ensures Minify(t, p) == Minify(t, p + 2 + |body|)
  {
    hide Minify, LineEnd, Has;
    var s, n := [SLASH, SLASH] + body, p + 2 + |body|;
    HasByte(t, p, s, 0);
    HasByte(t, p, s, 1);
    forall i | p + 1 <= i < n ensures t[i] != LF {
      HasByte(t, p, s, i - p);
    }
    LineEndIs(t, p + 1, n);
    LineTaken(t, p);
  }

  lemma BlockGone(t: seq<byte>, p: nat, body: seq<byte>)
    requires Has(t, p, [SLASH] + (body + [STAR, SLASH]))
    requires (body != [] ==> body[0] == STAR) && EndsAtLast(body + [STAR, SLASH])
    ensures Minify(t, p) == Minify(t, p + 3 + |body|)
  {
    hide Minify, CommentEnd, EndsAtLast, Has;
    var end := body + [STAR, SLASH];
    var s, n := [SLASH] + end, p + 1 + |body|;
    HasParts(t, p, [SLASH], end);
    HasByte(t, p, [SLASH], 0);
    HasByte(t, p + 1, end, 0);
    HasByte(t, p + 1, end, |body|);
    HasByte(t, p + 1, end, |body| + 1);
    assert t[p + 1..n + 2] == end by { HasIs(t, p + 1, end); }
    CommentEndIs(t, p + 1, n);
    BlockTaken(t, p);
  }

  lemma HasIs(t: seq<byte>, p: nat, s: seq<byte>)
    requires Has(t, p, s)
    ensures p + |s| <= |t| && t[p..p + |s|] == s
  {
  }

  lemma LiteralStays(t: seq<byte>, p: nat, body: seq<byte>)
    requires Has(t, p, [QUOTE] + (body + [QUOTE])) && InLiteral(body)
    ensures p + 2 + |body| <= |t|
    ensures Minify(t, p) == Prefix([QUOTE] + (body + [QUOTE]), Minify(t, p + 2 + |body|))
  {
    hide Minify, LiteralEnd, InLiteral, Has;
    HasParts(t, p, [QUOTE], body + [QUOTE]);
    HasByte(t, p, [QUOTE], 0);
    LiteralEndIs(t, p + 1, body);
    HasIs(t, p, [QUOTE] + (body + [QUOTE]));
    LiteralTaken(t, p);
  }

  lemma PieceTaken(t: seq<byte>, p: nat, piece: Piece, rest: seq<byte>)
    requires NulFree(t) && p <= |t| && t[p..] == SpellPiece(piece) + rest && FitsBefore(piece, At(rest, 0))
    ensures var n := p + |SpellPiece(piece)|;
            && n <= |t|
            && Minify(t, p) == Prefix(if piece.Literal? || piece.Other? then SpellPiece(piece) else [], Minify(t, n))
  {
    hide Minify, Has, EndsAtLast, InLiteral;
    var s := SpellPiece(piece);
    Cut(t, p, s, rest);
    HasByte(t, p, s, 0);
    NothingPrefixed(Minify(t, p + |s|));
    match piece
    case Gap(b) => GapTaken(t, p);
    case Other(b) => OtherTaken(t, p);
    case Line(body) => LineGone(t, p, body);
    case Block(body) => BlockGone(t, p, body);
    case Literal(body) => LiteralStays(t, p, body);
  }

  lemma NothingPrefixed(r: Result)
    ensures Prefix([], r) == r
  {
    if r.Minified? {
      assert [] + r.s == r.s;
    }
  }

  lemma GapTaken(t: seq<byte>, p: nat)
    requires p < |t| && t[p] in {SPACE, TAB, CR, LF}
    ensures Minify(t, p) == Minify(t, p + 1)
  {
  }

  lemma OtherTaken(t: seq<byte>, p: nat)
    requires p < |t| && t[p] !in {SPACE, TAB, CR, LF, QUOTE} && !(t[p] == SLASH && At(t, p + 1) in {SLASH, STAR})
    ensures Minify(t, p) == Prefix([t[p]], Minify(t, p + 1))
  {
  }

  lemma LineTaken(t: seq<byte>, p: nat)
    requires p < |t| && t[p] == SLASH && At(t, p + 1) == SLASH
    ensures Minify(t, p) == Minify(t, LineEnd(t, p + 1))
  {
  }

  lemma BlockTaken(t: seq<byte>, p: nat)
    requires p < |t| && t[p] == SLASH && At(t, p + 1) == STAR && CommentEnd(t, p + 1) < |t|
    ensures Minify(t, p) == Minify(t, CommentEnd(t, p + 1) + 2)
  {
  }

  lemma LiteralTaken(t: seq<byte>, p: nat)
    requires p < |t| && t[p] == QUOTE && LiteralEnd(t, p + 1) != 0
    ensures Minify(t, p) == Prefix(t[p..LiteralEnd(t, p + 1)], Minify(t, LiteralEnd(t, p + 1)))
  {
  }

  /** A text made of pieces is squeezed to the literals and the other bytes among them. */
  lemma {:induction false} PiecesMinified(t: seq<byte>, p: nat, ps: seq<Piece>)
    requires NulFree(t) && p <= |t| && t[p..] == SpellPieces(ps) && Fits(ps)
    ensures Minify(t, p) == Minified(Rest(ps))
    decreases |ps|
  {
    hide Minify, SpellPiece, FitsBefore;
    if ps == [] {
      MinifyEnds(t);
    } else {
      Cut(t, p, SpellPiece(ps[0]), SpellPieces(ps[1..]));
      PieceTaken(t, p, ps[0], SpellPieces(ps[1..]));
      PiecesMinified(t, p + |SpellPiece(ps[0])|, ps[1..]);
    }
  }

  lemma LineIs(body: seq<byte>, next: byte)
    ensures SpellPiece(Line(body)) == [SLASH, SLASH] + body
    ensures FitsBefore(Line(body), next) <==> (forall i :: 0 <= i < |body| ==> body[i] != LF) && next in {NUL, LF}
  {
  }

  lemma LineAt(t: seq<byte>, p: nat, n: nat, body: seq<byte>, next: byte)
    requires p + 2 <= n <= |t| && t[p] == SLASH && t[p + 1] == SLASH && body == t[p + 2..n]
    requires (forall i :: p + 1 <= i < n ==> t[i] != LF) && next in {NUL, LF}
    ensures t[p..n] == SpellPiece(Line(body)) && FitsBefore(Line(body), next)
  {
    hide SpellPiece, FitsBefore;
    LineIs(body, next);
    assert t[p..n] == [SLASH, SLASH] + body;
  }

  lemma LinePiece(t: seq<byte>, p: nat) returns (n: nat, body: seq<byte>)
    requires p < |t| && t[p] == SLASH && At(t, p + 1) == SLASH
    ensures n == LineEnd(t, p + 1) && p + 2 <= n <= |t| && t[p..n] == SpellPiece(Line(body))
    ensures FitsBefore(Line(body), At(t, n))
  {
    hide LineEnd, SpellPiece, FitsBefore;
    LineHasNoFeed(t, p + 1);
    n := LineEnd(t, p + 1);
    assert n > p + 1;
    body := t[p + 2..n];
    LineAt(t, p, n, body, At(t, n));
  }

  lemma BlockIs(body: seq<byte>, next: byte)
    ensures SpellPiece(Block(body)) == [SLASH] + (body + [STAR, SLASH])
    ensures FitsBefore(Block(body), next)
            <==> (body != [] ==> body[0] == STAR) && EndsAtLast(body + [STAR, SLASH])
  {
    hide EndsAtLast;
  }

  lemma Closing(t: seq<byte>, p: nat, q: nat)
    requires p < q && q + 2 <= |t| && t[p] == SLASH && t[q] == STAR && t[q + 1] == SLASH
    ensures t[p..q + 2] == [SLASH] + (t[p + 1..q] + [STAR, SLASH]) && t[p + 1..q + 2] == t[p + 1..q] + [STAR, SLASH]
  {
  }

  lemma BlockAt(t: seq<byte>, p: nat, q: nat, body: seq<byte>, next: byte)
    requires p < q && q + 2 <= |t| && t[p] == SLASH && t[p + 1] == STAR && t[q] == STAR && t[q + 1] == SLASH
    requires body == t[p + 1..q] && EndsAtLast(t[p + 1..q + 2])
    ensures t[p..q + 2] == SpellPiece(Block(body)) && FitsBefore(Block(body), next)
  {
    hide EndsAtLast, SpellPiece, FitsBefore;
    Closing(t, p, q);
    BlockIs(body, next);
  }

  lemma BlockPiece(t: seq<byte>, p: nat) returns (n: nat, body: seq<byte>)
    requires p < |t| && t[p] == SLASH && At(t, p + 1) == STAR && CommentEnd(t, p + 1) < |t|
    ensures n == CommentEnd(t, p + 1) + 2 && p < n <= |t| && t[p..n] == SpellPiece(Block(body))
    ensures FitsBefore(Block(body), At(t, n))
  {
    hide CommentEnd, EndsAtLast, SpellPiece, FitsBefore;
    CommentEndsFirst(t, p + 1);
    n := CommentEnd(t, p + 1) + 2;
    body := t[p + 1..n - 2];
    BlockAt(t, p, n - 2, body, At(t, n));
  }

  lemma LiteralIs(body: seq<byte>, next: byte)
    ensures SpellPiece(Literal(body)) == [QUOTE] + (body + [QUOTE])
    ensures FitsBefore(Literal(body), next) <==> InLiteral(body)
  {
    hide InLiteral;
  }

  lemma LiteralAt(t: seq<byte>, p: nat, n: nat, body: seq<byte>, next: byte)
    requires p + 2 <= n <= |t| && t[p] == QUOTE && t[n - 1] == QUOTE && body == t[p + 1..n - 1] && InLiteral(body)
    ensures t[p..n] == SpellPiece(Literal(body)) && FitsBefore(Literal(body), next)
  {
    hide InLiteral, SpellPiece, FitsBefore;
    Enclosed(t, p, n);
    LiteralIs(body, next);
  }

  lemma LiteralPiece(t: seq<byte>, p: nat) returns (n: nat, body: seq<byte>)
    requires p < |t| && t[p] == QUOTE && LiteralEnd(t, p + 1) != 0
    ensures n == LiteralEnd(t, p + 1) && p + 1 < n <= |t| && t[p..n] == SpellPiece(Literal(body))
    ensures FitsBefore(Literal(body), At(t, n))
  {
    hide LiteralEnd, InLiteral, SpellPiece, FitsBefore;
    LiteralFound(t, p + 1);
    n := LiteralEnd(t, p + 1);
    body := t[p + 1..n - 1];
    LiteralAt(t, p, n, body, At(t, n));
  }

  lemma Enclosed(t: seq<byte>, p: nat, n: nat)
    requires p + 2 <= n <= |t|
    ensures t[p..n] == [t[p]] + (t[p + 1..n - 1] + [t[n - 1]])
  {
  }

  lemma BytePiece(t: seq<byte>, p: nat)
    requires p < |t| && t[p] != QUOTE && !(t[p] == SLASH && At(t, p + 1) in {SLASH, STAR})
    ensures var piece := if IsGap(t[p]) then Gap(t[p]) else Other(t[p]);
            t[p..p + 1] == SpellPiece(piece) && FitsBefore(piece, At(t, p + 1))
  {
  }

  /** The first piece of a text that can be squeezed. */
  lemma PieceFound(t: seq<byte>, p: nat) returns (piece: Piece, n: nat)
    requires p < |t| && Minify(t, p).Minified?
    ensures p < n <= |t| && t[p..n] == SpellPiece(piece) && FitsBefore(piece, At(t, n)) && Minify(t, n).Minified?
  {
    hide Minify, LineEnd, CommentEnd, LiteralEnd, SpellPiece, FitsBefore;
    MinifyStep(t, p);
    var body;
    if t[p] == SLASH && At(t, p + 1) == SLASH {
      n, body := LinePiece(t, p);
      piece := Line(body);
    } else if t[p] == SLASH && At(t, p + 1) == STAR {
      n, body := BlockPiece(t, p);
      piece := Block(body);
    } else if t[p] == QUOTE {
      n, body := LiteralPiece(t, p);
      piece := Literal(body);
    } else {
      BytePiece(t, p);
      n := p + 1;
      piece := if IsGap(t[p]) then Gap(t[p]) else Other(t[p]);
    }
  }

  lemma {:induction false} PiecesFound(t: seq<byte>, p: nat) returns (ps: seq<Piece>)
    requires NulFree(t) && p <= |t| && Minify(t, p).Minified?
    ensures Fits(ps) && SpellPieces(ps) == t[p..]
    decreases |t| - p
  {
    hide Minify, SpellPiece, FitsBefore;
    if p == |t| {
      ps := [];
    } else {
      var piece, n := PieceFound(t, p);
      var rest := PiecesFound(t, n);
      ps := [piece] + rest;
      assert ps[1..] == rest && t[p..] == t[p..n] + t[n..];
      assert At(t[n..], 0) == At(t, n);
    }
  }

  /** A text can be squeezed if and only if it is made of such pieces, and what is left of it are the literals and the
      other bytes: no blank outside of a literal, and no comment. */
  lemma MinifyExactly(t: seq<byte>)
    requires NulFree(t)
    ensures Minify(t, 0).Minified? <==> exists ps :: Fits(ps) && SpellPieces(ps) == t
    ensures forall ps :: Fits(ps) && SpellPieces(ps) == t ==> Minify(t, 0) == Minified(Rest(ps))
  {
    hide Minify, Fits, SpellPieces, Rest;
    assert t[0..] == t;
    if Minify(t, 0).Minified? {
      var ps := PiecesFound(t, 0);
    }
    forall ps | Fits(ps) && SpellPieces(ps) == t ensures Minify(t, 0) == Minified(Rest(ps)) {
      PiecesMinified(t, 0, ps);
    }
  }
}
