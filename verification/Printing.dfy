/**
  print_value and the printers below it: each prints its parts, adds up a
  length, allocates, and fills the buffer. `Render` says what the text is; the
  methods also say how much of the computed length is left over.
 */
module Printing {
  import opened Bytes
  import opened CStrings
  import opened Literals
  import opened Values

  // ----- Writing through a pointer

  /** `*ptr++ = c` */
  method Put(out: array<byte>, ptr: nat, c: byte) returns (next: nat)
    requires ptr < out.Length
    modifies out
    ensures next == ptr + 1 && out[..next] == old(out[..ptr]) + [c]
  {
    out[ptr] := c;
    next := ptr + 1;
  }

  method PutTabs(out: array<byte>, ptr: nat, n: int) returns (next: nat)
    requires ptr + (if n < 0 then 0 else n) <= out.Length
    modifies out
    ensures next == ptr + |Indent(n, true)| && out[..next] == old(out[..ptr]) + Indent(n, true)
  {
    next := ptr;
    var i := 0;
    while i < n
      invariant 0 <= i && (i <= n || i == 0) && next == ptr + i && out[..next] == old(out[..ptr]) + Indent(i, true)
    {
      next := Put(out, next, TAB);
      i := i + 1;
      assert Indent(i, true) == Indent(i - 1, true) + [TAB];
    }
  }

  /** A fresh buffer of the given size that holds a text known in advance. */
  method Sprint(size: nat, s: seq<byte>) returns (out: array<byte>)
    requires |s| < size && NulFree(s)
    ensures fresh(out) && out.Length == size && IsCString(out, s)
  {
    out := new byte[size];
    for i := 0 to |s|
      invariant forall k :: 0 <= k < i ==> out[k] == s[k]
    {
      out[i] := s[i];
    }
    out[|s|] := NUL;
  }

  // ----- Printed text has no terminator in it

  lemma {:induction false} EscapedNulFree(s: seq<byte>)
    requires NulFree(s)
    ensures NulFree(Escaped(s))
    decreases |s|
  {
    if s != [] {
      assert NulFree(EscapeByte(s[0]));
      EscapedNulFree(s[1..]);
    }
  }

  lemma {:induction false} RenderNulFree(v: Json, depth: nat, fmt: bool)
    requires Valid(v)
    ensures NulFree(Render(v, depth, fmt))
    decreases v, 1
  {
    hide Escaped, Digits, RenderItems, RenderMembers;
    match v
    case String(s) => EscapedNulFree(s);
    case Array(items) => RenderItemsNulFree(items, depth + 1, fmt);
    case Object(members) => RenderMembersNulFree(members, depth + 1, fmt);
    case _ =>
  }

  lemma {:induction false} RenderItemsNulFree(s: seq<Json>, depth: nat, fmt: bool)
    requires ValidItems(s)
    ensures NulFree(RenderItems(s, depth, fmt))
    decreases s, 0
  {
    if s != [] {
      RenderNulFree(s[0], depth, fmt);
      RenderItemsNulFree(s[1..], depth, fmt);
    }
  }

  lemma MemberNulFree(m: Member, depth: nat, fmt: bool)
    requires NulFree(m.key) && NulFree(Render(m.value, depth, fmt))
    ensures NulFree(RenderMember(m, depth, fmt))
  {
    hide Render, Escaped;
    EscapedNulFree(m.key);
  }

  lemma {:induction false} RenderMembersNulFree(s: seq<Member>, depth: nat, fmt: bool)
    requires ValidMembers(s)
    ensures NulFree(RenderMembers(s, depth, fmt))
    decreases s, 0
  {
    hide Render, RenderMember;
    if s != [] {
      RenderNulFree(s[0].value, depth, fmt);
      MemberNulFree(s[0], depth, fmt);
      RenderMembersNulFree(s[1..], depth, fmt);
    }
  }

  lemma {:induction false} DigitsLength(n: nat, k: nat)
    requires n < Pow10(k) && k >= 1
    ensures |Digits(n)| <= k
    decreases k
  {
    if n >= 10 {
      assert Pow10(k) == 10 * Pow10(k - 1);
      DigitsLength(n / 10, k - 1);
    }
  }

  function Pow10(k: nat): nat { if k == 0 then 1 else 10 * Pow10(k - 1) }

  /** A 32-bit number fits the buffer allocated for it. */
  lemma DecimalLength(n: int)
    requires IsInt32(n)
    ensures |Decimal(n)| <= 11 && NulFree(Decimal(n))
  {
    assert Pow10(10) == 10_000_000_000 by {
      assert Pow10(2) == 100 && Pow10(4) == 10_000 && Pow10(6) == 1_000_000 && Pow10(8) == 100_000_000;
    }
    DigitsLength(if n < 0 then -n else n, 10);
  }

  // ----- Lengths

  /** What print_array adds to its length for the entries. */
  function ItemsCost(s: seq<Json>, depth: nat, fmt: bool): nat {
    if s == [] then 0
    else |Render(s[0], depth, fmt)| + 2 + (if fmt then 1 else 0) + ItemsCost(s[1..], depth, fmt)
  }

  lemma {:induction false} ItemsCostIs(s: seq<Json>, depth: nat, fmt: bool)
    requires s != []
    ensures ItemsCost(s, depth, fmt) == |RenderItems(s, depth, fmt)| + |s| + 1 + (if fmt then 1 else 0)
    decreases |s|
  {
    if |s| > 1 {
      ItemsCostIs(s[1..], depth, fmt);
    } else {
      assert ItemsCost(s[1..], depth, fmt) == 0;
    }
  }

  /** What print_object adds to its length for the entries. */
  function MembersCost(s: seq<Member>, depth: nat, fmt: bool): nat {
    if s == [] then 0
    else |Render(s[0].value, depth, fmt)| + |Quote(s[0].key)| + 2 + (if fmt then 2 + depth else 0)
         + MembersCost(s[1..], depth, fmt)
  }

  lemma {:induction false} MembersCostIs(s: seq<Member>, depth: nat, fmt: bool)
    requires s != []
    ensures MembersCost(s, depth, fmt) == |RenderMembers(s, depth, fmt)| + 1
    decreases |s|
  {
    assert |RenderMember(s[0], depth, fmt)| ==
           |Render(s[0].value, depth, fmt)| + |Quote(s[0].key)| + 1 + (if fmt then 1 + depth else 0);
    if |s| > 1 {
      MembersCostIs(s[1..], depth, fmt);
    } else {
      assert MembersCost(s[1..], depth, fmt) == 0 && |RenderMembers(s[1..], depth, fmt)| == 0;
    }
  }
}
