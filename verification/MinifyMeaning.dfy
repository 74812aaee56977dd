/**
  Minifying keeps the meaning of every accepted text: the minifier closes
  properly on it, and what it leaves is accepted for the same value.
 */
module MinifyMeaning {
  import opened Bytes
  import opened Literals
  import opened Grammar
  import opened Minifier
  import opened RoundTrip
  import opened MinifyLaws

  // ----- Reading depends only on the bytes read

  /** The same `n` bytes in both texts, from `p` and from `q`. */
  predicate Same(t: seq<byte>, p: nat, m: seq<byte>, q: nat, n: int) {
    0 <= n && p + n <= |t| && q + n <= |m| && forall j :: q <= j < q + n ==> m[j] == t[j - q + p]
  }

  lemma SameSlice(t: seq<byte>, p: nat, m: seq<byte>, q: nat, n: nat)
    requires Same(t, p, m, q, n)
    ensures m[q..q + n] == t[p..p + n]
  {
    var a, b := m[q..q + n], t[p..p + n];
    forall i | 0 <= i < n ensures a[i] == b[i] {
      assert m[q + i] == t[q + i - q + p];
    }
  }

  lemma SamePart(t: seq<byte>, p: nat, m: seq<byte>, q: nat, n: nat, p': nat)
    requires Same(t, p, m, q, n) && p <= p' <= p + n && 0 < n
    ensures Same(t, p', m, p' - p + q, p + n - p') && p + n <= |t| && q + n <= |m| && m[q] == t[p]
  {
  }

  lemma {:induction false} LexMoves(t: seq<byte>, p: nat, m: seq<byte>, q: nat)
    requires Lex(t, p).Closed? && Same(t, p, m, q, Lex(t, p).end - p)
    ensures Lex(m, q).Closed? && Lex(m, q).tokens == Lex(t, p).tokens
    ensures Lex(m, q).end - q == Lex(t, p).end - p
    decreases |t| - p
  {
    assert m[q] == t[p];
    if t[p] == QUOTE {
    } else if t[p] != BACKSLASH {
      LexMoves(t, p + 1, m, q + 1);
    } else {
      assert m[q + 1] == t[p + 1];
      if t[p + 1] != LOWER_U {
        LexMoves(t, p + 2, m, q + 2);
      } else {
        assert m[q + 2] == t[p + 2] && m[q + 3] == t[p + 3] && m[q + 4] == t[p + 4] && m[q + 5] == t[p + 5];
        LexMoves(t, p + 6, m, q + 6);
      }
    }
  }

  lemma StringMoves(t: seq<byte>, p: nat, m: seq<byte>, q: nat)
    requires p <= |t| && ReadString(t, p).Parsed? && Same(t, p, m, q, ReadString(t, p).end - p)
    ensures ReadString(m, q) == Parsed(ReadString(t, p).value, ReadString(t, p).end - p + q)
  {
    assert m[q] == t[p];
    LexMoves(t, p + 1, m, q + 1);
  }

  lemma {:induction false} DigitsEndMoves(t: seq<byte>, p: nat, m: seq<byte>, q: nat)
    requires p <= |t| && Same(t, p, m, q, DigitsEnd(t, p) - p) && !IsDigit(At(m, DigitsEnd(t, p) - p + q))
    ensures DigitsEnd(m, q) == DigitsEnd(t, p) - p + q
    decreases |t| - p
  {
    if IsDigit(At(t, p)) {
      assert m[q] == t[p];
      DigitsEndMoves(t, p + 1, m, q + 1);
    }
  }

  lemma DigitsStartMoves(t: seq<byte>, p: nat, m: seq<byte>, q: nat, end: nat)
    requires p < end && Same(t, p, m, q, end - p) && DigitsStart(t, p) <= end
    requires At(m, end - p + q) != ZERO
    ensures DigitsStart(m, q) == DigitsStart(t, p) - p + q
  {
    assert m[q] == t[p];
    var signed := if t[p] == MINUS then p + 1 else p;
    if signed < end {
      assert m[signed - p + q] == t[signed];
    }
  }

  lemma NumberEndMoves(t: seq<byte>, p: nat, m: seq<byte>, q: nat)
    requires p <= |t| && Same(t, p, m, q, NumberEnd(t, p) - p) && !IsDigit(At(m, NumberEnd(t, p) - p + q))
    ensures NumberEnd(m, q) == NumberEnd(t, p) - p + q
  {
    if ONE <= At(t, p) <= NINE {
      assert m[q] == t[p];
      DigitsEndMoves(t, p, m, q);
    }
  }

  lemma NumberMoves(t: seq<byte>, p: nat, m: seq<byte>, q: nat)
    requires p <= |t| && ReadNumber(t, p).Parsed? && Same(t, p, m, q, ReadNumber(t, p).end - p)
    requires EndsNumber(At(m, ReadNumber(t, p).end - p + q)) && p < ReadNumber(t, p).end
    ensures ReadNumber(m, q) == Parsed(ReadNumber(t, p).value, ReadNumber(t, p).end - p + q)
  {
    hide Magnitude, DigitsStart, NumberEnd, Same;
    var start, end := DigitsStart(t, p), ReadNumber(t, p).end;
    DigitsStartMoves(t, p, m, q, end);
    SamePart(t, p, m, q, end - p, start);
    NumberEndMoves(t, start, m, start - p + q);
    SameSlice(t, start, m, start - p + q, end - start);
  }

  // ----- The minified text follows the text

  /** From `q` on, `m` is what minifying leaves of `t` from `p` on. */
  ghost predicate Tracks(t: seq<byte>, p: nat, m: seq<byte>, q: nat) {
    p <= |t| && q <= |m| && Minify(t, p) == Minified(m[q..])
  }

  lemma TracksBounds(t: seq<byte>, p: nat, m: seq<byte>, q: nat)
    requires Tracks(t, p, m, q)
    ensures p <= |t| && q <= |m|
  {
  }

  lemma TracksGap(t: seq<byte>, p: nat, m: seq<byte>, q: nat)
    requires Tracks(t, p, m, q) && p < |t| && IsGap(t[p])
    ensures Tracks(t, p + 1, m, q)
  {
  }

  lemma TracksByte(t: seq<byte>, p: nat, m: seq<byte>, q: nat)
    requires Tracks(t, p, m, q) && p < |t| && IsPlain(t[p])
    ensures q < |m| && m[q] == t[p] && Tracks(t, p + 1, m, q + 1)
  {
    assert m[q..] == [t[p]] + Minify(t, p + 1).s;
    assert m[q + 1..] == m[q..][1..];
  }

  lemma {:induction false} TracksRun(t: seq<byte>, p: nat, m: seq<byte>, q: nat, n: nat)
    requires Tracks(t, p, m, q) && p + n <= |t| && forall i :: p <= i < p + n ==> IsPlain(t[i])
    ensures Same(t, p, m, q, n) && Tracks(t, p + n, m, q + n)
    decreases n
  {
    if n > 0 {
      TracksByte(t, p, m, q);
      TracksRun(t, p + 1, m, q + 1, n - 1);
    }
  }

  lemma {:induction false} LiteralEndIsLexEnd(t: seq<byte>, p: nat)
    requires Lex(t, p).Closed?
    ensures LiteralEnd(t, p) == Lex(t, p).end
    decreases |t| - p
  {
    if t[p] == QUOTE {
    } else if t[p] != BACKSLASH {
      LiteralEndIsLexEnd(t, p + 1);
    } else if t[p + 1] != LOWER_U {
      LiteralEndIsLexEnd(t, p + 2);
    } else {
      LiteralEndIsLexEnd(t, p + 6);
      LiteralEndHex(t, p + 2);
    }
  }

  lemma TracksString(t: seq<byte>, p: nat, m: seq<byte>, q: nat)
    requires Tracks(t, p, m, q) && ReadString(t, p).Parsed?
    ensures var e := ReadString(t, p).end - p + q;
            && ReadString(m, q) == Parsed(ReadString(t, p).value, e)
            && Tracks(t, ReadString(t, p).end, m, e)
  {
    hide Text;
    LiteralEndIsLexEnd(t, p + 1);
    var end := ReadString(t, p).end;
    assert m[q..] == t[p..end] + Minify(t, end).s;
    forall j | q <= j < q + (end - p) ensures m[j] == t[j - q + p] {
      assert m[j] == m[q..][j - q] == t[p..end][j - q];
    }
    StringMoves(t, p, m, q);
    assert m[end - p + q..] == m[q..][end - p..];
  }

  /** Blanks that stay blanks, and then the same byte. */
  lemma {:induction false} TracksSkip(t: seq<byte>, p: nat, m: seq<byte>, q: nat)
    requires Tracks(t, p, m, q) && At(t, Skip(t, p)) != SLASH
    ensures Tracks(t, Skip(t, p), m, Skip(m, q))
    ensures At(m, Skip(m, q)) == At(t, Skip(t, p))
    ensures IsBlank(At(m, q)) || At(m, q) == At(t, Skip(t, p))
    decreases |t| - p
  {
    if p == |t| {
    } else if IsGap(t[p]) {
      TracksGap(t, p, m, q);
      TracksSkip(t, p + 1, m, q);
    } else if IsBlank(t[p]) {
      TracksByte(t, p, m, q);
      TracksSkip(t, p + 1, m, q + 1);
    } else if t[p] == QUOTE {
      MinifyStep(t, p);
      assert m[q] == m[q..][0];
    } else if t[p] == NUL {
      TracksByte(t, p, m, q);
    } else {
      TracksByte(t, p, m, q);
    }
  }

  // ----- Accepted texts

  /** What can stand behind a value, after blanks, in an accepted text. */
  predicate Closes(c: byte) {
    c == COMMA || c == RBRACKET || c == RBRACE || c == NUL
  }

  lemma ReadStarts(t: seq<byte>, p: nat)
    requires p <= |t| && ReadValue(t, p).Parsed?
    ensures StartsValue(At(t, p))
  {
    NoWord(t, p);
  }

  /** A value read from the text is read from the minified text, and both stay in step behind it. */
  lemma {:induction false} TracksValue(t: seq<byte>, p: nat, m: seq<byte>, q: nat) returns (e: nat)
    requires Tracks(t, p, m, q) && NulFree(t) && ReadValue(t, p).Parsed?
    requires Closes(At(t, Skip(t, ReadValue(t, p).end)))
    ensures ReadValue(m, q) == Parsed(ReadValue(t, p).value, e) && Tracks(t, ReadValue(t, p).end, m, e)
    decreases |t| - p, 1
  {
    hide Tracks, ReadItems, ReadMembers, ReadString, ReadNumber, Skip;
    var end := ReadValue(t, p).end;
    NoWord(t, p);
    TracksBounds(t, p, m, q);
    NoWord(m, q);
    if At(t, p) == QUOTE {
      TracksString(t, p, m, q);
      KeyStarts(m, q);
      e := end - p + q;
    } else if At(t, p) == LBRACKET {
      e := TracksArray(t, p, m, q);
    } else if At(t, p) == LBRACE {
      e := TracksObject(t, p, m, q);
    } else {
      e := end - p + q;
      TracksScalar(t, p, m, q);
    }
  }

  lemma TracksScalar(t: seq<byte>, p: nat, m: seq<byte>, q: nat)
    requires Tracks(t, p, m, q) && NulFree(t) && ReadValue(t, p).Parsed?
    requires At(t, p) != QUOTE && At(t, p) != LBRACKET && At(t, p) != LBRACE
    requires Closes(At(t, Skip(t, ReadValue(t, p).end)))
    ensures var r := ReadValue(t, p);
            ReadValue(m, q) == Parsed(r.value, r.end - p + q) && Tracks(t, r.end, m, r.end - p + q)
  {
    hide Tracks, ReadValue, Skip;
    var end := ReadValue(t, p).end;
    ScalarIsPlain(t, p);
    TracksRun(t, p, m, q, end - p);
    TracksSkip(t, end, m, end - p + q);
    ScalarMoves(t, p, m, q);
  }

  /** A scalar is read from any other place where its bytes are, if nothing there continues a number. */
  lemma ScalarMoves(t: seq<byte>, p: nat, m: seq<byte>, q: nat)
    requires p <= |t| && ReadValue(t, p).Parsed? && Same(t, p, m, q, ReadValue(t, p).end - p)
    requires At(t, p) != QUOTE && At(t, p) != LBRACKET && At(t, p) != LBRACE
    requires EndsNumber(At(m, ReadValue(t, p).end - p + q))
    ensures ReadValue(m, q) == Parsed(ReadValue(t, p).value, ReadValue(t, p).end - p + q)
  {
    hide ReadItems, ReadMembers, ReadString, ReadNumber, Skip;
    var end := ReadValue(t, p).end;
    assert m[q] == t[p];
    NoWord(t, p);
    NoWord(m, q);
    SameSlice(t, p, m, q, end - p);
    if At(t, p) == MINUS || IsDigit(At(t, p)) {
      NumberMoves(t, p, m, q);
    }
  }

  lemma ScalarIsPlain(t: seq<byte>, p: nat)
    requires p <= |t| && ReadValue(t, p).Parsed?
    requires At(t, p) != QUOTE && At(t, p) != LBRACKET && At(t, p) != LBRACE
    ensures forall i :: p <= i < ReadValue(t, p).end ==> IsPlain(t[i])
  {
    hide ReadItems, ReadMembers, ReadString, ReadNumber, Skip;
    var end := ReadValue(t, p).end;
    NoWord(t, p);
    if At(t, p) == MINUS || IsDigit(At(t, p)) {
      NumberIsPlain(t, p);
    } else {
      forall i | p <= i < end ensures IsPlain(t[i]) {
        assert t[i] == t[p..end][i - p];
      }
    }
  }

  lemma NumberIsPlain(t: seq<byte>, p: nat)
    requires p <= |t| && ReadNumber(t, p).Parsed?
    ensures forall i :: p <= i < ReadNumber(t, p).end ==> IsPlain(t[i])
  {
    hide Magnitude, NumberEnd;
    var start, end := DigitsStart(t, p), ReadNumber(t, p).end;
    forall i | start <= i < end ensures IsPlain(t[i]) {
      assert t[i] == t[start..end][i - start];
      assert IsDigit(t[start..end][i - start]);
    }
  }

  lemma {:induction false} TracksArray(t: seq<byte>, p: nat, m: seq<byte>, q: nat) returns (e: nat)
    requires Tracks(t, p, m, q) && NulFree(t) && At(t, p) == LBRACKET && ReadValue(t, p).Parsed?
    ensures ReadValue(m, q) == Parsed(ReadValue(t, p).value, e) && Tracks(t, ReadValue(t, p).end, m, e)
    decreases |t| - p, 0
  {
    hide Tracks, ReadItems, ReadMembers, ReadString, ReadNumber, Skip;
    var open := Skip(t, p + 1);
    NoWord(t, p);
    TracksByte(t, p, m, q);
    NoWord(m, q);
    if At(t, open) == RBRACKET {
      TracksSkip(t, p + 1, m, q + 1);
      TracksByte(t, open, m, Skip(m, q + 1));
      e := Skip(m, q + 1) + 1;
    } else {
      ItemsStart(t, open);
      TracksSkip(t, p + 1, m, q + 1);
      e := TracksItems(t, open, m, Skip(m, q + 1));
    }
  }

  /** Entries start with a value or a key, and end behind their bracket. */
  lemma ItemsStart(t: seq<byte>, p: nat)
    requires p <= |t|
    ensures ReadItems(t, p).Parsed? ==> ReadValue(t, Skip(t, p)).Parsed? && StartsValue(At(t, Skip(t, p)))
    ensures ReadMembers(t, p).Parsed? ==> ReadMember(t, p).Parsed? && At(t, Skip(t, p)) == QUOTE
    ensures !IsBlank(At(t, p)) ==> Skip(t, p) == p
  {
    hide ReadValue;
    if ReadItems(t, p).Parsed? {
      ReadStarts(t, Skip(t, p));
    }
  }

  lemma {:induction false} TracksItems(t: seq<byte>, p: nat, m: seq<byte>, q: nat) returns (e: nat)
    requires Tracks(t, p, m, q) && NulFree(t) && ReadItems(t, p).Parsed?
    ensures ReadItems(m, q) == Parsed(ReadItems(t, p).value, e) && Tracks(t, ReadItems(t, p).end, m, e)
    decreases |t| - p, 2
  {
    hide Tracks, ReadValue, ReadItems, Skip;
    ItemsParse(t, p);
    ReadStarts(t, Skip(t, p));
    TracksSkip(t, p, m, q);
    var v := ReadValue(t, Skip(t, p));
    var e' := TracksValue(t, Skip(t, p), m, Skip(m, q));
    TracksSkip(t, v.end, m, e');
    TracksByte(t, Skip(t, v.end), m, Skip(m, e'));
    e := Skip(m, e') + 1;
    if At(t, Skip(t, v.end)) == COMMA {
      e := TracksItems(t, Skip(t, v.end) + 1, m, e);
    }
    ItemsStep(m, q, v.value, e');
  }

  /** How an accepted list of entries starts. */
  lemma ItemsParse(t: seq<byte>, p: nat)
    requires p <= |t| && ReadItems(t, p).Parsed?
    ensures var v := ReadValue(t, Skip(t, p));
            && v.Parsed?
            && var q := Skip(t, v.end);
               || (At(t, q) == COMMA && ReadItems(t, q + 1).Parsed?
                   && ReadItems(t, p) == Parsed([v.value] + ReadItems(t, q + 1).value, ReadItems(t, q + 1).end))
               || (At(t, q) == RBRACKET && ReadItems(t, p) == Parsed([v.value], q + 1))
  {
    hide ReadValue;
  }

  lemma {:induction false} TracksObject(t: seq<byte>, p: nat, m: seq<byte>, q: nat) returns (e: nat)
    requires Tracks(t, p, m, q) && NulFree(t) && At(t, p) == LBRACE && ReadValue(t, p).Parsed?
    ensures ReadValue(m, q) == Parsed(ReadValue(t, p).value, e) && Tracks(t, ReadValue(t, p).end, m, e)
    decreases |t| - p, 0
  {
    hide Tracks, ReadItems, ReadMembers, ReadString, ReadNumber, Skip;
    var open := Skip(t, p + 1);
    NoWord(t, p);
    TracksByte(t, p, m, q);
    NoWord(m, q);
    if At(t, open) == RBRACE {
      TracksSkip(t, p + 1, m, q + 1);
      TracksByte(t, open, m, Skip(m, q + 1));
      e := Skip(m, q + 1) + 1;
    } else {
      ItemsStart(t, open);
      TracksSkip(t, p + 1, m, q + 1);
      e := TracksMembers(t, open, m, Skip(m, q + 1));
    }
  }

  lemma {:induction false} TracksMembers(t: seq<byte>, p: nat, m: seq<byte>, q: nat) returns (e: nat)
    requires Tracks(t, p, m, q) && NulFree(t) && ReadMembers(t, p).Parsed?
    ensures ReadMembers(m, q) == Parsed(ReadMembers(t, p).value, e) && Tracks(t, ReadMembers(t, p).end, m, e)
    decreases |t| - p, 3
  {
    hide Tracks, ReadMember, Skip;
    ItemsStart(t, p);
    var v := ReadMember(t, p);
    var e' := TracksMember(t, p, m, q);
    TracksByte(t, v.end, m, e');
    e := e' + 1;
    if At(t, v.end) == COMMA {
      e := TracksMembers(t, v.end + 1, m, e);
    }
  }

  lemma {:induction false} TracksMember(t: seq<byte>, p: nat, m: seq<byte>, q: nat) returns (e: nat)
    requires Tracks(t, p, m, q) && NulFree(t) && ReadMember(t, p).Parsed?
    requires Closes(At(t, ReadMember(t, p).end))
    ensures ReadMember(m, q) == Parsed(ReadMember(t, p).value, e) && Tracks(t, ReadMember(t, p).end, m, e)
    decreases |t| - p, 2
  {
    hide Tracks, ReadValue, ReadString, Skip;
    var key := ReadString(t, Skip(t, p));
    var colon := Skip(t, key.end);
    var v := ReadValue(t, Skip(t, colon + 1));
    KeyStarts(t, Skip(t, p));
    TracksSkip(t, p, m, q);
    TracksString(t, Skip(t, p), m, Skip(m, q));
    var k := ReadString(m, Skip(m, q)).end;
    TracksSkip(t, key.end, m, k);
    TracksByte(t, colon, m, Skip(m, k));
    ReadStarts(t, Skip(t, colon + 1));
    TracksSkip(t, colon + 1, m, Skip(m, k) + 1);
    var e' := TracksValue(t, Skip(t, colon + 1), m, Skip(m, Skip(m, k) + 1));
    TracksSkip(t, v.end, m, e');
    e := Skip(m, e');
  }

  lemma KeyStarts(t: seq<byte>, p: nat)
    requires p <= |t| && ReadString(t, p).Parsed?
    ensures At(t, p) == QUOTE
  {
  }

  // ----- Accepted texts have no comments and close their literals

  /** From `p` on there is no slash outside the literals, and all literals are closed. */
  predicate Slashless(t: seq<byte>, p: nat)
    requires p <= |t|
    decreases |t| - p
  {
    if p == |t| then true
    else if t[p] == QUOTE then LiteralEnd(t, p + 1) != 0 && Slashless(t, LiteralEnd(t, p + 1))
    else t[p] != SLASH && Slashless(t, p + 1)
  }

  lemma {:induction false} SlashlessMinifies(t: seq<byte>, p: nat)
    requires p <= |t| && Slashless(t, p)
    ensures Minify(t, p).Minified?
    decreases |t| - p
  {
    if p < |t| {
      SlashlessMinifies(t, if t[p] == QUOTE then LiteralEnd(t, p + 1) else p + 1);
    }
  }

  lemma {:induction false} SkipCloses(t: seq<byte>, p: nat)
    requires p <= |t| && Slashless(t, Skip(t, p))
    ensures Slashless(t, p)
    decreases |t| - p
  {
    if IsBlank(At(t, p)) {
      SkipCloses(t, p + 1);
    }
  }

  lemma {:induction false} RunCloses(t: seq<byte>, p: nat, e: nat)
    requires p <= e <= |t| && (forall i :: p <= i < e ==> IsPlain(t[i])) && Slashless(t, e)
    ensures Slashless(t, p)
    decreases e - p
  {
    if p < e {
      RunCloses(t, p + 1, e);
    }
  }

  /** A plain byte, found behind blanks. */
  lemma ByteCloses(t: seq<byte>, p: nat)
    requires p <= |t| && IsPlain(At(t, Skip(t, p))) && Skip(t, p) < |t| && Slashless(t, Skip(t, p) + 1)
    ensures Slashless(t, p)
  {
    hide Slashless;
    RunCloses(t, Skip(t, p), Skip(t, p) + 1);
    SkipCloses(t, p);
  }

  lemma StringCloses(t: seq<byte>, p: nat)
    requires p <= |t| && ReadString(t, p).Parsed? && Slashless(t, ReadString(t, p).end)
    ensures Slashless(t, p)
  {
    LiteralEndIsLexEnd(t, p + 1);
  }

  lemma {:induction false} ValueCloses(t: seq<byte>, p: nat)
    requires p <= |t| && NulFree(t) && ReadValue(t, p).Parsed? && Slashless(t, ReadValue(t, p).end)
    ensures Slashless(t, p)
    decreases |t| - p, 1
  {
    hide Slashless, ReadItems, ReadMembers, ReadString, ReadNumber, Skip;
    NoWord(t, p);
    if At(t, p) == QUOTE {
      StringCloses(t, p);
    } else if At(t, p) == LBRACKET || At(t, p) == LBRACE {
      var open := Skip(t, p + 1);
      if At(t, open) == (if At(t, p) == LBRACKET then RBRACKET else RBRACE) {
        ByteCloses(t, p + 1);
      } else {
        if At(t, p) == LBRACKET { ItemsClose(t, open); } else { MembersClose(t, open); }
        SkipCloses(t, p + 1);
      }
      RunCloses(t, p, p + 1);
    } else {
      ScalarIsPlain(t, p);
      RunCloses(t, p, ReadValue(t, p).end);
    }
  }

  lemma {:induction false} ItemsClose(t: seq<byte>, p: nat)
    requires p <= |t| && NulFree(t) && ReadItems(t, p).Parsed? && Slashless(t, ReadItems(t, p).end)
    ensures Slashless(t, p)
    decreases |t| - p, 2
  {
    hide Slashless, ReadValue, Skip;
    var v := ReadValue(t, Skip(t, p));
    if At(t, Skip(t, v.end)) == COMMA {
      ItemsClose(t, Skip(t, v.end) + 1);
    }
    ByteCloses(t, v.end);
    ValueCloses(t, Skip(t, p));
    SkipCloses(t, p);
  }

  lemma {:induction false} MembersClose(t: seq<byte>, p: nat)
    requires p <= |t| && NulFree(t) && ReadMembers(t, p).Parsed? && Slashless(t, ReadMembers(t, p).end)
    ensures Slashless(t, p)
    decreases |t| - p, 3
  {
    hide Slashless, ReadMember;
    var m := ReadMember(t, p);
    if At(t, m.end) == COMMA {
      MembersClose(t, m.end + 1);
    }
    RunCloses(t, m.end, m.end + 1);
    MemberCloses(t, p);
  }

  lemma {:induction false} MemberCloses(t: seq<byte>, p: nat)
    requires p <= |t| && NulFree(t) && ReadMember(t, p).Parsed? && Slashless(t, ReadMember(t, p).end)
    ensures Slashless(t, p)
    decreases |t| - p, 2
  {
    hide Slashless, ReadValue, ReadString, Skip;
    var key := ReadString(t, Skip(t, p));
    var colon := Skip(t, key.end);
    var v := ReadValue(t, Skip(t, colon + 1));
    SkipCloses(t, v.end);
    ValueCloses(t, Skip(t, colon + 1));
    SkipCloses(t, colon + 1);
    ByteCloses(t, key.end);
    StringCloses(t, Skip(t, p));
    SkipCloses(t, p);
  }

  lemma WholeIsSlashless(t: seq<byte>)
    requires NulFree(t) && ReadText(t, true).Parsed?
    ensures Slashless(t, 0)
  {
    hide ReadValue;
    var p, v := Skip(t, 0), ReadValue(t, Skip(t, 0));
    SkipCloses(t, v.end);
    ValueCloses(t, p);
    SkipCloses(t, 0);
  }

  /** Every text accepted as a whole minifies, and what is left is accepted as a whole for the same value. */
  lemma MinifyKeepsMeaning(t: seq<byte>)
    requires NulFree(t) && ReadText(t, true).Parsed?
    ensures Minify(t, 0).Minified?
    ensures ReadText(Minify(t, 0).s, true) == Parsed(ReadText(t, true).value, |Minify(t, 0).s|)
  {
    hide ReadValue, Tracks;
    var p, v := Skip(t, 0), ReadValue(t, Skip(t, 0));
    WholeIsSlashless(t);
    SlashlessMinifies(t, 0);
    var m := Minify(t, 0).s;
    TracksWhole(t);
    ReadStarts(t, p);
    TracksSkip(t, 0, m, 0);
    var e := TracksValue(t, p, m, Skip(m, 0));
    TracksSkip(t, v.end, m, e);
    MinifyNulFree(t, 0);
  }

  lemma TracksWhole(t: seq<byte>)
    requires Minify(t, 0).Minified?
    ensures Tracks(t, 0, Minify(t, 0).s, 0)
  {
  }
}
