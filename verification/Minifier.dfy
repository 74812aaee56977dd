/**
  cJSON_Minify: squeezing blanks and comments out of a text in place.
 */
module Minifier {
  import opened Bytes
  import opened CStrings

  /** `Unclosed`: a string literal or a block comment never ends. */
  datatype Result = Minified(s: seq<byte>) | Unclosed

  function Prefix(s: seq<byte>, r: Result): (r': Result) {
    if r.Minified? then Minified(s + r.s) else Unclosed
  }

  predicate IsGap(c: byte) { c == SPACE || c == TAB || c == CR || c == LF }

  /** Index of the line feed that ends a comment, or of the end of the text. */
  function LineEnd(t: seq<byte>, p: nat): (q: nat)
    requires p <= |t|
    ensures p <= q <= |t|
    decreases |t| - p
  {
    if p == |t| || t[p] == LF then p else LineEnd(t, p + 1)
  }

  /** Index of the next star followed by a slash, or of the end of the text. */
  function CommentEnd(t: seq<byte>, p: nat): (q: nat)
    requires p <= |t|
    ensures p <= q <= |t|
    ensures q < |t| ==> t[q] == STAR && At(t, q + 1) == SLASH
    decreases |t| - p
  {
    if p == |t| || (t[p] == STAR && At(t, p + 1) == SLASH) then p else CommentEnd(t, p + 1)
  }

  /** Inside a literal: the index behind its closing quote, or 0 when there is none. */
  function LiteralEnd(t: seq<byte>, p: nat): (q: nat)
    ensures q == 0 || (p < q <= |t| && t[q - 1] == QUOTE)
    decreases |t| - p
  {
    if p >= |t| then 0
    else if t[p] == QUOTE then p + 1
    else LiteralEnd(t, if t[p] == BACKSLASH then p + 2 else p + 1)
  }

  /** What is left of the text from `p`. */
  function Minify(t: seq<byte>, p: nat): (r: Result)
    requires p <= |t|
    decreases |t| - p
  {
    if p == |t| then Minified([])
    else if IsGap(t[p]) then Minify(t, p + 1)
    else if t[p] == SLASH && At(t, p + 1) == SLASH then Minify(t, LineEnd(t, p + 1))
    else if t[p] == SLASH && At(t, p + 1) == STAR then
      var q := CommentEnd(t, p + 1);
      if q == |t| then Unclosed else Minify(t, q + 2)
    else if t[p] == QUOTE then
      var q := LiteralEnd(t, p + 1);
      if q == 0 then Unclosed else Prefix(t[p..q], Minify(t, q))
    else Prefix([t[p]], Minify(t, p + 1))
  }

  /** What a pass over the buffer keeps: `read` is ahead of `into`, nothing from `read` on has been
      written, and what has been written is what the text read so far leaves. */
  ghost predicate Squeezing(json: array<byte>, t: seq<byte>, into: nat, read: nat)
    reads json
  {
    && NulFree(t) && |t| < json.Length && into <= read <= |t| && json[|t|] == NUL
    && (forall i :: read <= i < |t| ==> json[i] == t[i])
    && Minify(t, 0).Minified? && Minify(t, read).Minified?
    && json[..into] + Minify(t, read).s == Minify(t, 0).s
  }

  /** Skipping a comment: only the reading index moves. */
  method SkipLine(json: array<byte>, ghost t: seq<byte>, start: nat) returns (read: nat)
    requires start <= |t| < json.Length && NulFree(t) && json[|t|] == NUL
    requires forall i :: start <= i < |t| ==> json[i] == t[i]
    ensures read == LineEnd(t, start)
  {
    read := start;
    while json[read] != NUL && json[read] != LF
      invariant start <= read <= |t| && LineEnd(t, read) == LineEnd(t, start)
      decreases |t| - read
    {
      read := read + 1;
    }
  }

  method SkipComment(json: array<byte>, ghost t: seq<byte>, start: nat) returns (read: nat)
    requires start <= |t| < json.Length && NulFree(t) && json[|t|] == NUL
    requires forall i :: start <= i < |t| ==> json[i] == t[i]
    requires CommentEnd(t, start) < |t|
    ensures read == CommentEnd(t, start) + 2
  {
    read := start;
    while json[read] != NUL && !(json[read] == STAR && json[read + 1] == SLASH)
      invariant start <= read <= |t| && CommentEnd(t, read) == CommentEnd(t, start)
      decreases |t| - read
    {
      read := read + 1;
    }
    read := read + 2;
  }

  /** In the middle of a literal: the rest of it is copied, and then the text behind it. */
  ghost predicate Copying(json: array<byte>, t: seq<byte>, into: nat, read: nat, q: nat)
    reads json
  {
    && NulFree(t) && |t| < json.Length && into <= read <= q <= |t| && json[|t|] == NUL
    && (forall i :: read <= i < |t| ==> json[i] == t[i])
    && Minify(t, 0).Minified? && Minify(t, q).Minified?
    && json[..into] + (t[read..q] + Minify(t, q).s) == Minify(t, 0).s
  }

  /** `*into++=*json++` */
  method CopyByte(json: array<byte>, ghost t: seq<byte>, into: nat, read: nat, ghost q: nat)
    returns (into': nat, read': nat)
    requires Copying(json, t, into, read, q) && read < q
    modifies json
    ensures Copying(json, t, into', read', q) && read' == read + 1
  {
    ghost var rest := Minify(t, q).s;
    assert t[read..q] == [t[read]] + t[read + 1..q];
    assert json[..into] + (t[read..q] + rest) == json[..into] + [t[read]] + (t[read + 1..q] + rest);
    json[into] := json[read];
    assert json[..into + 1] == json[..into] + [t[read]];
    into', read' := into + 1, read + 1;
  }

  /** One step of squeezing, case by case. */
  lemma MinifyStep(t: seq<byte>, p: nat)
    requires p < |t| && Minify(t, p).Minified?
    ensures IsGap(t[p]) ==> Minify(t, p + 1) == Minify(t, p)
    ensures t[p] == SLASH && At(t, p + 1) == SLASH ==> Minify(t, LineEnd(t, p + 1)) == Minify(t, p)
    ensures t[p] == SLASH && At(t, p + 1) == STAR ==>
              CommentEnd(t, p + 1) < |t| && Minify(t, CommentEnd(t, p + 1) + 2) == Minify(t, p)
    ensures t[p] == QUOTE ==>
              var q := LiteralEnd(t, p + 1);
              q > p && Minify(t, q).Minified? && Minify(t, p).s == t[p..q] + Minify(t, q).s
    ensures !IsGap(t[p]) && t[p] != QUOTE && !(t[p] == SLASH && At(t, p + 1) in {SLASH, STAR}) ==>
              Minify(t, p + 1).Minified? && Minify(t, p).s == [t[p]] + Minify(t, p + 1).s
  {
  }

  lemma LiteralStep(t: seq<byte>, p: nat)
    requires LiteralEnd(t, p) != 0
    ensures p < LiteralEnd(t, p) && p < |t|
    ensures t[p] == QUOTE ==> LiteralEnd(t, p) == p + 1
    ensures t[p] == BACKSLASH ==> LiteralEnd(t, p + 2) == LiteralEnd(t, p) && p + 2 < LiteralEnd(t, p)
    ensures t[p] != QUOTE && t[p] != BACKSLASH ==> LiteralEnd(t, p + 1) == LiteralEnd(t, p)
  {
  }

  lemma CopyingStarts(json: array<byte>, t: seq<byte>, into: nat, read: nat)
    requires Squeezing(json, t, into, read) && json[read] == QUOTE
    ensures read + 1 < LiteralEnd(t, read + 1) && Copying(json, t, into, read, LiteralEnd(t, read + 1))
  {
    MinifyStep(t, read);
    LiteralStep(t, read + 1);
  }

  lemma CopyingEnds(json: array<byte>, t: seq<byte>, into: nat, q: nat)
    requires Copying(json, t, into, q, q)
    ensures Squeezing(json, t, into, q)
  {
    assert t[q..q] + Minify(t, q).s == Minify(t, q).s;
  }

  lemma CopyingReads(json: array<byte>, t: seq<byte>, into: nat, read: nat, q: nat)
    requires Copying(json, t, into, read, q) && read < q
    ensures q <= |t| < json.Length && json[read] == t[read] != NUL
  {
  }

  /** One character of a literal, with the backslash before it. */
  method CopyCharacter(json: array<byte>, ghost t: seq<byte>, into: nat, read: nat, ghost q: nat)
    returns (into': nat, read': nat)
    requires Copying(json, t, into, read, q) && read < q <= |t| < json.Length && LiteralEnd(t, read) == q
    requires json[read] == t[read] && t[read] != QUOTE
    modifies json
    ensures Copying(json, t, into', read', q) && read < read' < q && LiteralEnd(t, read') == q
    ensures json[read'] == t[read'] != NUL
  {
    hide Copying, LiteralEnd;
    into', read' := into, read;
    LiteralStep(t, read);
    if json[read] == BACKSLASH {
      into', read' := CopyByte(json, t, into', read', q);
    }
    into', read' := CopyByte(json, t, into', read', q);
    LiteralStep(t, read');
    CopyingReads(json, t, into', read', q);
  }

  method CopyLiteral(json: array<byte>, ghost t: seq<byte>, start: nat, from: nat) returns (into: nat, read: nat)
    requires Squeezing(json, t, start, from) && json[from] == QUOTE
    modifies json
    ensures Squeezing(json, t, into, read) && from < read
  {
    hide Squeezing, Copying, LiteralEnd;
    ghost var q := LiteralEnd(t, from + 1);
    CopyingStarts(json, t, start, from);
    into, read := CopyByte(json, t, start, from, q);
    CopyingReads(json, t, into, read, q);
    while json[read] != NUL && json[read] != QUOTE
      invariant from < read < q <= |t| < json.Length && LiteralEnd(t, read) == q
      invariant Copying(json, t, into, read, q) && json[read] == t[read] != NUL
      decreases |t| - read
    {
      into, read := CopyCharacter(json, t, into, read, q);
    }
    LiteralStep(t, read);
    into, read := CopyByte(json, t, into, read, q);
    CopyingEnds(json, t, into, q);
  }

  lemma {:induction false} MinifyNulFree(t: seq<byte>, p: nat)
    requires p <= |t| && NulFree(t) && Minify(t, p).Minified?
    ensures NulFree(Minify(t, p).s)
    decreases |t| - p
  {
    if p < |t| {
      if IsGap(t[p]) {
        MinifyNulFree(t, p + 1);
      } else if t[p] == SLASH && At(t, p + 1) == SLASH {
        MinifyNulFree(t, LineEnd(t, p + 1));
      } else if t[p] == SLASH && At(t, p + 1) == STAR {
        MinifyNulFree(t, CommentEnd(t, p + 1) + 2);
      } else if t[p] == QUOTE {
        MinifyNulFree(t, LiteralEnd(t, p + 1));
      } else {
        MinifyNulFree(t, p + 1);
      }
    }
  }

  lemma MinifyEnds(t: seq<byte>)
    ensures Minify(t, |t|) == Minified([])
  {
  }

  method MinifyInPlace(json: array<byte>, ghost t: seq<byte>)
    requires IsCString(json, t) && Minify(t, 0).Minified?
    modifies json
    ensures IsCString(json, Minify(t, 0).s)
  {
    hide Minify, LineEnd, CommentEnd;
    var read, into := 0, 0;
    while json[read] != NUL
      invariant 0 <= read && 0 <= into && Squeezing(json, t, into, read)
      decreases |t| - read
    {
      var c := json[read];
      MinifyStep(t, read);
      if IsGap(c) {
        read := read + 1;
      } else if c == SLASH && json[read + 1] == SLASH {
        read := SkipLine(json, t, read + 1);
      } else if c == SLASH && json[read + 1] == STAR {
        read := SkipComment(json, t, read + 1);
      } else if c == QUOTE {
        into, read := CopyLiteral(json, t, into, read);
      } else {
        ghost var rest := Minify(t, read + 1).s;
        assert json[..into] + ([c] + rest) == json[..into] + [c] + rest;
        json[into] := c;
        assert json[..into + 1] == json[..into] + [c];
        into, read := into + 1, read + 1;
      }
    }
    MinifyEnds(t);
    MinifyNulFree(t, 0);
    json[into] := NUL;
  }
}
