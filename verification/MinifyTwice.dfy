/**
  When minifying twice is the same as minifying once.
 */
module MinifyTwice {
  import opened Bytes
  import opened Grammar
  import opened Minifier
  import opened MinifyMeaning

  // ----- Where a text ends does not depend on where it starts

  lemma {:induction false} LineEndShift(t: seq<byte>, p: nat, m: seq<byte>, q: nat)
    requires p <= |t| && q <= |m| && t[p..] == m[q..]
    ensures LineEnd(t, p) - p == LineEnd(m, q) - q
    decreases |t| - p
  {
    if p < |t| {
      assert t[p] == t[p..][0] == m[q];
      assert t[p + 1..] == t[p..][1..] == m[q + 1..];
      LineEndShift(t, p + 1, m, q + 1);
    }
  }

  lemma {:induction false} CommentEndShift(t: seq<byte>, p: nat, m: seq<byte>, q: nat)
    requires p <= |t| && q <= |m| && t[p..] == m[q..]
    ensures CommentEnd(t, p) - p == CommentEnd(m, q) - q
    decreases |t| - p
  {
    if p < |t| {
      assert t[p] == t[p..][0] == m[q];
      assert t[p + 1..] == t[p..][1..] == m[q + 1..];
      assert p + 1 < |t| ==> t[p + 1] == t[p + 1..][0] == m[q + 1];
      CommentEndShift(t, p + 1, m, q + 1);
    }
  }

  /** A closed literal in front of anything. */
  lemma {:induction false} LiteralEndShift(t: seq<byte>, p: nat, m: seq<byte>, q: nat, n: nat)
    requires p <= n <= |t| && q + (n - p) <= |m| && m[q..q + (n - p)] == t[p..n] && LiteralEnd(t, p) == n != 0
    ensures LiteralEnd(m, q) == q + (n - p)
    decreases |t| - p
  {
    LiteralStep(t, p);
    assert t[p] == t[p..n][0] == m[q];
    if t[p] != QUOTE {
      var k := if t[p] == BACKSLASH then 2 else 1;
      assert t[p + k..n] == t[p..n][k..] == m[q + k..q + (n - p)];
      LiteralEndShift(t, p + k, m, q + k, n);
    }
  }

  lemma {:induction false} LiteralEndSame(t: seq<byte>, p: nat, m: seq<byte>, q: nat)
    requires |t| - p == |m| - q && (p <= |t| ==> t[p..] == m[q..])
    ensures LiteralEnd(m, q) == if LiteralEnd(t, p) == 0 then 0 else LiteralEnd(t, p) - p + q
    decreases |t| - p
  {
    if p < |t| {
      assert t[p] == t[p..][0] == m[q];
      if t[p] != QUOTE {
        var k := if t[p] == BACKSLASH then 2 else 1;
        assert p + k <= |t| ==> t[p + k..] == t[p..][k..] == m[q + k..];
        LiteralEndSame(t, p + k, m, q + k);
      }
    }
  }

  lemma SuffixStep(t: seq<byte>, p: nat, m: seq<byte>, q: nat, n: nat)
    requires p <= n <= |t| && q <= |m| && t[p..] == m[q..]
    ensures |t| - p == |m| - q && t[p..n] == m[q..q + (n - p)] && t[n..] == m[q + (n - p)..]
  {
    assert t[p..n] == t[p..][..n - p] == m[q..q + (n - p)];
    assert t[n..] == t[p..][n - p..] == m[q + (n - p)..];
  }

  /** Where the minifier goes on behind what it takes at `p`, or 0 if what it takes never ends. */
  function StepEnd(t: seq<byte>, p: nat): (q: nat)
    requires p < |t|
    ensures q == 0 || p < q <= |t|
  {
    if t[p] == SLASH && At(t, p + 1) == SLASH then LineEnd(t, p + 1)
    else if t[p] == SLASH && At(t, p + 1) == STAR then
      if CommentEnd(t, p + 1) == |t| then 0 else CommentEnd(t, p + 1) + 2
    else if t[p] == QUOTE then LiteralEnd(t, p + 1)
    else p + 1
  }

  predicate StartsComment(t: seq<byte>, p: nat)
    requires p < |t|
  {
    t[p] == SLASH && (At(t, p + 1) == SLASH || At(t, p + 1) == STAR)
  }

  /** Minifying, step by step: a gap or a comment leaves nothing, anything else itself. */
  lemma Unfold(t: seq<byte>, p: nat)
    requires p < |t|
    ensures var q := StepEnd(t, p);
            Minify(t, p) == if q == 0 then Unclosed
                            else if IsGap(t[p]) || StartsComment(t, p) then Minify(t, q)
                            else Prefix(t[p..q], Minify(t, q))
  {
    assert t[p..p + 1] == [t[p]];
  }

  lemma StepShift(t: seq<byte>, p: nat, m: seq<byte>, q: nat)
    requires p < |t| && q < |m| && t[p..] == m[q..]
    ensures StepEnd(m, q) == if StepEnd(t, p) == 0 then 0 else StepEnd(t, p) - p + q
    ensures t[p] == m[q] && StartsComment(t, p) == StartsComment(m, q)
  {
    assert t[p] == t[p..][0] == m[q] && |t| - p == |m| - q;
    assert t[p + 1..] == t[p..][1..] == m[q + 1..];
    assert p + 1 < |t| ==> t[p + 1] == t[p + 1..][0] == m[q + 1];
    LineEndShift(t, p + 1, m, q + 1);
    CommentEndShift(t, p + 1, m, q + 1);
    LiteralEndSame(t, p + 1, m, q + 1);
  }

  /** One step on two texts that go on alike. */
  lemma StepBoth(t: seq<byte>, p: nat, m: seq<byte>, q: nat)
    requires p < |t| && q < |m| && t[p..] == m[q..]
    ensures var n := StepEnd(t, p);
            && (n == 0 ==> Minify(t, p) == Minify(m, q))
            && (n != 0 ==>
                  && 0 <= q + (n - p) <= |m| && t[n..] == m[q + (n - p)..]
                  && (Minify(t, n) == Minify(m, q + (n - p)) ==> Minify(t, p) == Minify(m, q)))
  {
    hide Minify, StepEnd, StartsComment, Prefix, LineEnd, CommentEnd, LiteralEnd, IsGap;
    StepShift(t, p, m, q);
    Unfold(t, p);
    Unfold(m, q);
    if StepEnd(t, p) != 0 {
      SuffixStep(t, p, m, q, StepEnd(t, p));
    }
  }

  lemma {:induction false} MinifyShift(t: seq<byte>, p: nat, m: seq<byte>, q: nat)
    requires p <= |t| && q <= |m| && t[p..] == m[q..]
    ensures Minify(t, p) == Minify(m, q)
    decreases |t| - p
  {
    hide Minify, StepEnd;
    assert |t| - p == |m| - q;
    if p == |t| {
      MinifyEnds(t);
      MinifyEnds(m);
    } else {
      StepBoth(t, p, m, q);
      if StepEnd(t, p) != 0 {
        MinifyShift(t, StepEnd(t, p), m, q + (StepEnd(t, p) - p));
      }
    }
  }

  // ----- Which texts clash

  /** The index of the first byte from `p` on that is kept. */
  function NextKept(t: seq<byte>, p: nat): (q: nat)
    requires p <= |t|
    ensures p <= q <= |t|
    decreases |t| - p
  {
    if p == |t| then p
    else if (IsGap(t[p]) || StartsComment(t, p)) && StepEnd(t, p) != 0 then NextKept(t, StepEnd(t, p))
    else p
  }

  /** From `p` on, outside the literals, a slash that is kept has a slash or a star as the next byte that is kept. */
  predicate Clashes(t: seq<byte>, p: nat)
    requires p <= |t|
    decreases |t| - p
  {
    p < |t| && StepEnd(t, p) != 0
    && (Clashes(t, StepEnd(t, p))
        || (t[p] == SLASH && !StartsComment(t, p) && At(t, NextKept(t, p + 1)) in {SLASH, STAR}))
  }

  lemma {:induction false} FirstKept(t: seq<byte>, p: nat)
    requires p <= |t| && Minify(t, p).Minified?
    ensures At(Minify(t, p).s, 0) == At(t, NextKept(t, p))
    decreases |t| - p
  {
    if p < |t| {
      hide Minify, StepEnd, StartsComment;
      Unfold(t, p);
      if IsGap(t[p]) || StartsComment(t, p) {
        FirstKept(t, StepEnd(t, p));
      } else {
        assert t[p..StepEnd(t, p)][0] == t[p];
      }
    } else {
      MinifyEnds(t);
    }
  }

  lemma {:induction false} MinifyShrinks(t: seq<byte>, p: nat)
    requires p <= |t| && Minify(t, p).Minified?
    ensures |Minify(t, p).s| <= |t| - p
    decreases |t| - p
  {
    if p < |t| {
      hide Minify, StepEnd, StartsComment;
      Unfold(t, p);
      MinifyShrinks(t, StepEnd(t, p));
    } else {
      MinifyEnds(t);
    }
  }

  // ----- The exact condition

  /** A byte or a literal in front of a text that starts no comment with it stays in front of what minifying
      the text leaves. */
  lemma MinifyInFront(t: seq<byte>, p: nat, rest: seq<byte>)
    requires p < |t| && StepEnd(t, p) != 0 && !IsGap(t[p]) && !StartsComment(t, p)
    requires t[p] == SLASH ==> At(rest, 0) != SLASH && At(rest, 0) != STAR
    ensures Minify(t[p..StepEnd(t, p)] + rest, 0) == Prefix(t[p..StepEnd(t, p)], Minify(rest, 0))
  {
    var n := StepEnd(t, p);
    var w := t[p..n];
    var m := w + rest;
    assert m[0] == t[p] && m[|w|..] == rest[0..] && m[..|w|] == w;
    if t[p] == QUOTE {
      assert t[p + 1..n] == w[1..] == m[1..|w|];
      LiteralEndShift(t, p + 1, m, 1, n);
    } else {
      assert At(m, 1) == At(rest, 0);
    }
    assert StepEnd(m, 0) == |w|;
    Unfold(m, 0);
    MinifyShift(m, |w|, rest, 0);
  }

  /** What starts a comment gets shorter. */
  lemma CommentIsLost(m: seq<byte>)
    requires m != [] && StartsComment(m, 0)
    ensures Minify(m, 0) != Minified(m)
  {
    Unfold(m, 0);
    if StepEnd(m, 0) != 0 && Minify(m, StepEnd(m, 0)).Minified? {
      MinifyShrinks(m, StepEnd(m, 0));
    }
  }

  lemma {:induction false} SettledFrom(t: seq<byte>, p: nat)
    requires p <= |t| && Minify(t, p).Minified?
    ensures Minify(Minify(t, p).s, 0) == Minify(t, p) <==> !Clashes(t, p)
    decreases |t| - p
  {
    if p == |t| {
      MinifyEnds(t);
      MinifyEnds([]);
    } else {
      hide Minify, StepEnd, StartsComment, NextKept;
      Unfold(t, p);
      var n := StepEnd(t, p);
      SettledFrom(t, n);
      if !IsGap(t[p]) && !StartsComment(t, p) {
        var w, rest := t[p..n], Minify(t, n).s;
        FirstKept(t, n);
        if t[p] == SLASH && At(rest, 0) in {SLASH, STAR} {
          SlashIsOne(t, p, rest);
          CommentIsLost(w + rest);
        } else {
          MinifyInFront(t, p, rest);
          SameInFront(w, Minify(rest, 0), rest);
          SlashStep(t, p);
        }
      }
    }
  }

  lemma SlashStep(t: seq<byte>, p: nat)
    requires p < |t|
    ensures t[p] == SLASH && !StartsComment(t, p) ==> StepEnd(t, p) == p + 1
    ensures IsGap(t[p]) ==> StepEnd(t, p) == p + 1
  {
  }

  lemma SlashIsOne(t: seq<byte>, p: nat, rest: seq<byte>)
    requires p < |t| && t[p] == SLASH && !StartsComment(t, p) && At(rest, 0) in {SLASH, STAR}
    ensures StepEnd(t, p) == p + 1 && StartsComment(t[p..p + 1] + rest, 0)
  {
  }

  lemma SameInFront(w: seq<byte>, r: Result, rest: seq<byte>)
    ensures Prefix(w, r) == Minified(w + rest) <==> r == Minified(rest)
  {
    if r.Minified? && w + r.s == w + rest {
      assert r.s == (w + r.s)[|w|..] == (w + rest)[|w|..] == rest;
    }
  }

  /** Minifying what is left changes nothing, if and only if no slash that is kept is next to another slash or to
      a star when the gaps and the comments between them are gone. */
  lemma MinifyTwiceIff(t: seq<byte>)
    requires Minify(t, 0).Minified?
    ensures Minify(Minify(t, 0).s, 0) == Minify(t, 0) <==> !Clashes(t, 0)
  {
    SettledFrom(t, 0);
  }

  lemma {:induction false} SlashlessDoesNotClash(t: seq<byte>, p: nat)
    requires p <= |t| && Slashless(t, p)
    ensures !Clashes(t, p)
    decreases |t| - p
  {
    if p < |t| {
      SlashlessDoesNotClash(t, if t[p] == QUOTE then LiteralEnd(t, p + 1) else p + 1);
    }
  }

  /** In particular, minifying is idempotent on every text that is accepted as a whole. */
  lemma AcceptedIsSettled(t: seq<byte>)
    requires NulFree(t) && ReadText(t, true).Parsed?
    ensures Minify(t, 0).Minified? && Minify(Minify(t, 0).s, 0) == Minify(t, 0)
  {
    WholeIsSlashless(t);
    SlashlessMinifies(t, 0);
    SlashlessDoesNotClash(t, 0);
    MinifyTwiceIff(t);
  }

  /** A slash, a blank and a slash: minified, they are a comment. */
  lemma MinifyIsNotIdempotent()
    ensures var t := [SLASH, SPACE, SLASH];
            Clashes(t, 0) && Minify(t, 0) == Minified([SLASH, SLASH]) && Minify([SLASH, SLASH], 0) == Minified([])
  {
    var t := [SLASH, SPACE, SLASH];
    assert Minify(t, 3) == Minified([]);
    assert Minify(t, 2) == Minified([SLASH]);
    assert Minify(t, 1) == Minified([SLASH]);
    assert Minify(t, 0) == Minified([SLASH, SLASH]);
    assert LineEnd([SLASH, SLASH], 1) == 2;
    assert NextKept(t, 2) == 2 && NextKept(t, 1) == 2;
  }
}
