/**
  NUL-terminated strings in buffers, and the C library calls made on them.
 */
module CStrings {
  import opened Bytes

  /** The buffer holds the text `s`, its terminator, and possibly unused room after it. */
  ghost predicate IsCString(a: array<byte>, s: seq<byte>)
    reads a
  {
    && |s| < a.Length && a[|s|] == NUL
    && forall i :: 0 <= i < |s| ==> a[i] == s[i] && s[i] != NUL
  }

  method StrLen(a: array<byte>, ghost s: seq<byte>) returns (n: nat)
    requires IsCString(a, s)
    ensures n == |s|
  {
    n := 0;
    while a[n] != NUL
      invariant n <= |s|
      decreases |s| - n
    {
      n := n + 1;
    }
  }

  /** strcpy: copy the text and its terminator to `out[at..]`; the text must fit. */
  method StrCpy(out: array<byte>, at: nat, a: array<byte>, ghost s: seq<byte>)
    requires IsCString(a, s) && out != a && at + |s| < out.Length
    modifies out
    ensures out[..at + |s|] == old(out[..at]) + s
    ensures out[at + |s|] == NUL
  {
    var i := 0;
    while a[i] != NUL
      invariant i <= |s|
      invariant out[..at + i] == old(out[..at]) + s[..i]
      decreases |s| - i
    {
      out[at + i] := a[i];
      assert s[..i + 1] == s[..i] + [a[i]];
      assert out[..at + i + 1] == out[..at + i] + [a[i]];
      i := i + 1;
    }
    assert s[..i] == s;
    out[at + i] := NUL;
  }

  /** strdup: a fresh buffer of exactly the needed size. */
  method StrDup(a: array<byte>, ghost s: seq<byte>) returns (copy: array<byte>)
    requires IsCString(a, s)
    ensures fresh(copy) && IsCString(copy, s) && copy.Length == |s| + 1
  {
    var len := StrLen(a, s);
    copy := new byte[len + 1];
    StrCpy(copy, 0, a, s);
  }
}
