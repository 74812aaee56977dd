/**
  cJSON_Print and cJSON_PrintUnformatted.
 */
module Printer {
  import opened Bytes
  import opened CStrings
  import opened Literals
  import opened Values
  import opened Trees
  import opened Printing

  lemma {:induction false} PrintableIsValid(t: Tree)
    requires WF(t) && Printable(t)
    ensures Valid(Denote(t))
    decreases t, 1
  {
    if t.kind.IsArray? || t.kind.IsObject? {
      PrintableListIsValid(t.kids, t.kind.IsObject?);
    }
  }

  lemma {:induction false} PrintableListIsValid(s: seq<Tree>, named: bool)
    requires WFList(s) && PrintableList(s, named)
    ensures ValidItems(DenoteItems(s)) && (named ==> ValidMembers(DenoteMembers(s)))
    decreases s, 0
  {
    if s != [] {
      PrintableIsValid(s[0]);
      PrintableListIsValid(s[1..], named);
    }
  }

  lemma {:induction false} PrintableKid(s: seq<Tree>, named: bool, i: nat)
    requires PrintableList(s, named) && i < |s|
    ensures Printable(s[i]) && (named ==> s[i].name != null)
    ensures DenoteItems(s)[i..] == [Denote(s[i])] + DenoteItems(s)[i + 1..]
    ensures DenoteMembers(s)[i..] == [Member(s[i].key, Denote(s[i]))] + DenoteMembers(s)[i + 1..]
    decreases i
  {
    if i > 0 {
      assert s[i] == s[1..][i - 1];
      PrintableKid(s[1..], named, i - 1);
      assert DenoteItems(s)[i..] == DenoteItems(s[1..])[i - 1..];
      assert DenoteItems(s)[i + 1..] == DenoteItems(s[1..])[i..];
      assert DenoteMembers(s)[i..] == DenoteMembers(s[1..])[i - 1..];
      assert DenoteMembers(s)[i + 1..] == DenoteMembers(s[1..])[i..];
    }
  }

  /** How many children there are. */
  method CountChildren(item: Node, ghost t: Tree) returns (n: nat)
    requires item == t.node && WF(t)
    ensures n == |t.kids|
  {
    TreeAllocated(t);
    var child := item.child;
    n := 0;
    while child != null
      invariant n <= |t.kids| && child == First(t.kids[n..]) && WF(t)
      decreases |t.kids| - n
    {
      Kid(t, n);
      n, child := n + 1, child.next;
    }
  }

  method PrintNumber(item: Node) returns (out: array<byte>)
    requires IsInt32(item.valueint)
    ensures fresh(out) && out.Length == 21 && IsCString(out, Decimal(item.valueint))
  {
    DecimalLength(item.valueint);
    out := Sprint(21, Decimal(item.valueint));
  }

  method PrintValue(item: Node, ghost t: Tree, depth: nat, fmt: bool) returns (out: array<byte>)
    requires item == t.node && WF(t) && Printable(t)
    ensures fresh(out) && IsCString(out, Render(Denote(t), depth, fmt))
    decreases t, 2
  {
    match item.kind
    case IsArray => out := PrintArray(item, t, depth, fmt);
    case IsObject => out := PrintObject(item, t, depth, fmt);
    case IsNull => out := Sprint(5, NULL_TEXT);
    case IsFalse => out := Sprint(6, FALSE_TEXT);
    case IsTrue => out := Sprint(5, TRUE_TEXT);
    case IsNumber => out := PrintNumber(item);
    case IsString =>
      out := PrintString(item.valuestring, t.text);
      QuoteNulFree(t.text);
      Filled(out, Quote(t.text));
  }

  lemma QuoteNulFree(s: seq<byte>)
    requires NulFree(s)
    ensures NulFree(Quote(s))
  {
    EscapedNulFree(s);
  }

  /** A buffer that holds a text and its terminator in front. */
  lemma Filled(out: array<byte>, s: seq<byte>)
    requires |s| < out.Length && out[..|s| + 1] == s + [NUL] && NulFree(s)
    ensures IsCString(out, s)
  {
    forall i | 0 <= i < |s| ensures out[i] == s[i] {
      assert out[..|s| + 1][i] == (s + [NUL])[i];
    }
    assert out[..|s| + 1][|s|] == NUL;
  }

  // ----- Arrays

  /** Bytes that print_array computes and does not use. */
  function ArraySlack(n: nat, fmt: bool): nat {
    if n == 0 then 0 else n + (if fmt then 4 else 3)
  }

  method PrintArray(item: Node, ghost t: Tree, depth: nat, fmt: bool) returns (out: array<byte>)
    requires item == t.node && WF(t) && t.kind.IsArray? && Printable(t)
    ensures fresh(out) && IsCString(out, Render(Denote(t), depth, fmt))
    ensures out.Length == |Render(Denote(t), depth, fmt)| + 1 + ArraySlack(|t.kids|, fmt)
    decreases t, 1
  {
    hide WF, Printable, Siblings, Render, RenderItems, ItemsCost, Denote, DenoteItems;
    ghost var items := DenoteItems(t.kids);
    TreeAllocated(t);
    PrintableIsValid(t);
    ArrayText(t, depth, fmt);
    var numentries := CountChildren(item, t);
    if numentries == 0 {
      NoEntries(depth + 1, fmt);
      out := Sprint(3, [LBRACKET, RBRACKET]);
      return;
    }
    var entries, len := PrintItems(item, t, depth, fmt);
    ItemsCostIs(items, depth + 1, fmt);
    out := new byte[len];
    var ptr := ComposeItems(out, entries, items, depth + 1, fmt);
    ptr := Put(out, ptr, RBRACKET);
    ptr := Put(out, ptr, NUL);
    RenderNulFree(Denote(t), depth, fmt);
    Filled(out, Render(Denote(t), depth, fmt));
  }

  /** The second loop of print_array: copy the entries into the output. */
  method ComposeItems(out: array<byte>, entries: seq<array<byte>>, ghost items: seq<Json>, depth: nat, fmt: bool)
    returns (ptr: nat)
    requires |entries| == |items| && Entries(entries, items, depth, fmt) && out !in entries
    requires |RenderItems(items, depth, fmt)| + 3 < out.Length
    modifies out
    ensures ptr == 1 + |RenderItems(items, depth, fmt)|
    ensures out[..ptr] == [LBRACKET] + RenderItems(items, depth, fmt)
  {
    hide Render, RenderItems;
    ghost var text := [LBRACKET] + RenderItems(items, depth, fmt);
    ptr := Put(out, 0, LBRACKET);
    out[ptr] := NUL;
    var i := 0;
    assert items[0..] == items;
    while i < |entries|
      invariant 0 <= i <= |entries| && ptr + |RenderItems(items[i..], depth, fmt)| == |text|
      invariant Entries(entries, items, depth, fmt)
      invariant out[..ptr] + RenderItems(items[i..], depth, fmt) == text
    {
      ItemsFrom(items, i, depth, fmt);
      ptr := PutItem(out, ptr, entries[i], Render(items[i], depth, fmt), i == |entries| - 1, fmt);
      i := i + 1;
    }
    NoEntries(depth, fmt);
    assert items[i..] == [];
  }

  lemma ArrayText(t: Tree, depth: nat, fmt: bool)
    requires t.kind.IsArray?
    ensures Render(Denote(t), depth, fmt) == [LBRACKET] + RenderItems(DenoteItems(t.kids), depth + 1, fmt) + [RBRACKET]
  {
  }

  lemma NoEntries(depth: nat, fmt: bool)
    ensures RenderItems([], depth, fmt) == [] && RenderMembers([], depth, fmt) == []
  {
  }

  /** The printed entries. */
  ghost predicate Entries(entries: seq<array<byte>>, items: seq<Json>, depth: nat, fmt: bool)
    reads entries
  {
    |entries| <= |items| && forall i :: 0 <= i < |entries| ==> IsCString(entries[i], Render(items[i], depth, fmt))
  }

  lemma EntriesMore(entries: seq<array<byte>>, ret: array<byte>, items: seq<Json>, depth: nat, fmt: bool)
    requires Entries(entries, items, depth, fmt) && |entries| < |items|
    requires IsCString(ret, Render(items[|entries|], depth, fmt))
    ensures Entries(entries + [ret], items, depth, fmt)
  {
  }

  lemma NoneYet(items: seq<Json>, members: seq<Member>, depth: nat, fmt: bool)
    ensures Entries([], items, depth, fmt) && NamedEntries([], [], members, depth, fmt)
  {
  }

  /** The first loop of print_array: print every entry, and add up the length. */
  method PrintItems(item: Node, ghost t: Tree, depth: nat, fmt: bool) returns (entries: seq<array<byte>>, len: nat)
    requires item == t.node && WF(t) && t.kind.IsArray? && Printable(t)
    ensures |entries| == |t.kids| && Entries(entries, DenoteItems(t.kids), depth + 1, fmt)
    ensures len == 5 + ItemsCost(DenoteItems(t.kids), depth + 1, fmt)
    decreases t, 0
  {
    hide WF, Printable, Siblings, Render, Denote, DenoteItems, IsCString, ItemsCost, PrintableList, Entries, Nodes,
      NodesOf;
    Content(t);
    TreeAllocated(t);
    PrintableKids(t);
    ghost var items := DenoteItems(t.kids);
    assert items[0..] == items;
    var child := item.child;
    entries, len := [], 5;
    NoneYet(items, [], depth + 1, fmt);
    ghost var i := 0;
    assert ItemsCost([], depth + 1, fmt) == 0 by { NoCost(depth + 1, fmt); }
    while child != null
      invariant 0 <= i <= |t.kids| && child == First(t.kids[i..]) && WF(t)
      invariant |entries| == i && Entries(entries, items, depth + 1, fmt)
      invariant len + ItemsCost(items[i..], depth + 1, fmt) == 5 + ItemsCost(items, depth + 1, fmt)
      decreases |t.kids| - i
    {
      Kid(t, i);
      PrintableKid(t.kids, false, i);
      ItemsCostFrom(items, i, depth + 1, fmt);
      var ret := PrintValue(child, t.kids[i], depth + 1, fmt);
      EntriesMore(entries, ret, items, depth + 1, fmt);
      entries := entries + [ret];
      var n := StrLen(ret, Render(items[i], depth + 1, fmt));
      len := len + n + 2 + (if fmt then 1 else 0);
      child, i := child.next, i + 1;
    }
    assert items[i..] == [];
  }

  lemma PrintableKids(t: Tree)
    requires Printable(t) && (t.kind.IsArray? || t.kind.IsObject?)
    ensures PrintableList(t.kids, t.kind.IsObject?)
  {
  }

  lemma NoCost(depth: nat, fmt: bool)
    ensures ItemsCost([], depth, fmt) == 0 && MembersCost([], depth, fmt) == 0
  {
  }

  lemma ItemsCostFrom(s: seq<Json>, i: nat, depth: nat, fmt: bool)
    requires i < |s|
    ensures ItemsCost(s[i..], depth, fmt) ==
            |Render(s[i], depth, fmt)| + 2 + (if fmt then 1 else 0) + ItemsCost(s[i + 1..], depth, fmt)
  {
    assert s[i..][1..] == s[i + 1..];
  }

  /** One entry and what separates it from the next. */
  method PutItem(out: array<byte>, ptr: nat, entry: array<byte>, ghost r: seq<byte>, last: bool, fmt: bool)
    returns (next: nat)
    requires IsCString(entry, r) && entry != out && ptr + |r| + 2 < out.Length
    modifies out
    ensures next == ptr + |r + (if last then [] else Separator(fmt))| < out.Length
    ensures out[..next] == old(out[..ptr]) + (r + (if last then [] else Separator(fmt)))
  {
    StrCpy(out, ptr, entry, r);
    var n := StrLen(entry, r);
    next := ptr + n;
    if !last {
      next := Put(out, next, COMMA);
      if fmt {
        next := Put(out, next, SPACE);
      }
      out[next] := NUL;
    }
  }

  lemma ItemsFrom(s: seq<Json>, i: nat, depth: nat, fmt: bool)
    requires i < |s|
    ensures RenderItems(s[i..], depth, fmt) ==
            (Render(s[i], depth, fmt) + (if i == |s| - 1 then [] else Separator(fmt)))
            + RenderItems(s[i + 1..], depth, fmt)
  {
    assert s[i..][1..] == s[i + 1..];
  }

  // ----- Objects

  /** Bytes that print_object computes and does not use. */
  function ObjectSlack(n: nat, depth: nat, fmt: bool): nat {
    if n > 0 then 5 else if fmt && depth > 0 then 1 else 0
  }

  method PrintObject(item: Node, ghost t: Tree, depth: nat, fmt: bool) returns (out: array<byte>)
    requires item == t.node && WF(t) && t.kind.IsObject? && Printable(t)
    ensures fresh(out) && IsCString(out, Render(Denote(t), depth, fmt))
    ensures out.Length == |Render(Denote(t), depth, fmt)| + 1 + ObjectSlack(|t.kids|, depth, fmt)
    decreases t, 1
  {
    hide WF, Printable, Siblings, Render, RenderMembers, MembersCost, Denote, DenoteMembers, NamedEntries, Nodes,
      NodesOf, Buffers, BuffersOf, IsCString, NulFree;
    ghost var members := DenoteMembers(t.kids);
    TreeAllocated(t);
    PrintableIsValid(t);
    ObjectText(t, depth, fmt);
    RenderNulFree(Denote(t), depth, fmt);
    var numentries := CountChildren(item, t);
    var ptr: nat;
    if numentries == 0 {
      NoEntries(depth + 1, fmt);
      assert Render(Denote(t), depth, fmt) == [LBRACE] + LineFeed(fmt) + Indent(depth - 1, fmt) + [RBRACE];
      out := EmptyObject(depth, fmt);
      return;
    }
    var names, entries, len := PrintMembers(item, t, depth, fmt);
    MembersCostIs(members, depth + 1, fmt);
    out := new byte[len];
    ptr := ComposeMembers(out, names, entries, members, depth + 1, fmt);
    ptr := PutClose(out, ptr, depth, fmt);
    Filled(out, Render(Denote(t), depth, fmt));
  }

  /** The end of an object: tabs, brace, terminator. */
  method PutClose(out: array<byte>, ptr: nat, tabs: int, fmt: bool) returns (next: nat)
    requires ptr + |Indent(tabs, fmt)| + 2 <= out.Length
    modifies out
    ensures next == ptr + |Indent(tabs, fmt)| + 2
    ensures out[..next] == old(out[..ptr]) + Indent(tabs, fmt) + [RBRACE] + [NUL]
  {
    next := ptr;
    if fmt {
      next := PutTabs(out, next, tabs);
    }
    next := Put(out, next, RBRACE);
    next := Put(out, next, NUL);
  }

  method EmptyObject(depth: nat, fmt: bool) returns (out: array<byte>)
    ensures fresh(out) && IsCString(out, [LBRACE] + LineFeed(fmt) + Indent(depth - 1, fmt) + [RBRACE])
    ensures out.Length == if fmt then depth + 4 else 3
  {
    out := new byte[if fmt then depth + 4 else 3];
    var ptr: nat := Put(out, 0, LBRACE);
    if fmt {
      ptr := Put(out, ptr, LF);
    }
    ptr := PutClose(out, ptr, depth - 1, fmt);
    Filled(out, [LBRACE] + LineFeed(fmt) + Indent(depth - 1, fmt) + [RBRACE]);
  }

  lemma ObjectText(t: Tree, depth: nat, fmt: bool)
    requires t.kind.IsObject?
    ensures Render(Denote(t), depth, fmt) ==
            [LBRACE] + LineFeed(fmt) + RenderMembers(DenoteMembers(t.kids), depth + 1, fmt)
            + Indent(if t.kids == [] then depth - 1 else depth, fmt) + [RBRACE]
  {
    hide RenderMembers, DenoteMembers, LineFeed, Indent;
  }

  /** The printed names and values. */
  ghost predicate NamedEntries(names: seq<array<byte>>, entries: seq<array<byte>>, members: seq<Member>, depth: nat,
        fmt: bool)
    reads names, entries
  {
    && |names| == |entries| <= |members|
    && (forall i :: 0 <= i < |names| ==> IsCString(names[i], Quote(members[i].key)))
    && (forall i :: 0 <= i < |entries| ==> IsCString(entries[i], Render(members[i].value, depth, fmt)))
  }

  lemma NamedEntriesMore(names: seq<array<byte>>, str: array<byte>, entries: seq<array<byte>>, ret: array<byte>,
        members: seq<Member>, depth: nat, fmt: bool)
    requires NamedEntries(names, entries, members, depth, fmt) && |entries| < |members|
    requires IsCString(str, Quote(members[|entries|].key))
    requires IsCString(ret, Render(members[|entries|].value, depth, fmt))
    ensures NamedEntries(names + [str], entries + [ret], members, depth, fmt)
  {
    hide IsCString, Quote, Render;
  }

  /** The first loop of print_object. */
  method PrintMembers(item: Node, ghost t: Tree, depth: nat, fmt: bool)
    returns (names: seq<array<byte>>, entries: seq<array<byte>>, len: nat)
    requires item == t.node && WF(t) && t.kind.IsObject? && Printable(t)
    ensures |entries| == |t.kids| && NamedEntries(names, entries, DenoteMembers(t.kids), depth + 1, fmt)
    ensures len == 7 + (if fmt then depth + 1 else 0) + MembersCost(DenoteMembers(t.kids), depth + 1, fmt)
    decreases t, 0
  {
    hide WF, Printable, Siblings, Render, Denote, DenoteMembers, IsCString, MembersCost, PrintableList, Quote,
      NamedEntries, Nodes, NodesOf, Buffers, BuffersOf, WFList, HasContent, First;
    Content(t);
    TreeAllocated(t);
    PrintableKids(t);
    ghost var members := DenoteMembers(t.kids);
    assert members[0..] == members;
    var child := item.child;
    names, entries, len := [], [], 7 + (if fmt then depth + 1 else 0);
    ghost var len0, i := len, 0;
    FirstFrom(t.kids, 0);
    NoneYet([], members, depth + 1, fmt);
    assert MembersCost([], depth + 1, fmt) == 0 by { NoCost(depth + 1, fmt); }
    while child != null
      invariant 0 <= i <= |t.kids| && child == First(t.kids[i..]) && WF(t)
      invariant |entries| == |names| == i && NamedEntries(names, entries, members, depth + 1, fmt)
      invariant len + MembersCost(members[i..], depth + 1, fmt) == len0 + MembersCost(members, depth + 1, fmt)
      decreases |t.kids| - i
    {
      FirstFrom(t.kids, i);
      Kid(t, i);
      PrintableKid(t.kids, true, i);
      MembersCostFrom(members, i, depth + 1, fmt);
      var str, ret, n := PrintMember(child, t.kids[i], depth + 1, fmt);
      NamedEntriesMore(names, str, entries, ret, members, depth + 1, fmt);
      names, entries := names + [str], entries + [ret];
      len := len + n + 2 + (if fmt then 2 + (depth + 1) else 0);
      child, i := child.next, i + 1;
    }
    FirstFrom(t.kids, i);
    assert members[i..] == [];
  }

  /** Name and value of one entry, and their lengths together. */
  method PrintMember(child: Node, ghost t: Tree, depth: nat, fmt: bool)
    returns (str: array<byte>, ret: array<byte>, n: nat)
    requires child == t.node && WF(t) && Printable(t) && t.name != null
    ensures IsCString(str, Quote(t.key)) && IsCString(ret, Render(Denote(t), depth, fmt))
    ensures n == |Render(Denote(t), depth, fmt)| + |Quote(t.key)|
    decreases t, 3
  {
    hide WF, Printable, Render, Denote, Quote, Holds;
    Content(t);
    TreeAllocated(t);
    assert IsCString(t.name, t.key) by { NameHeld(t); }
    str := PrintString(child.name, t.key);
    QuoteNulFree(t.key);
    Filled(str, Quote(t.key));
    ret := PrintValue(child, t, depth, fmt);
    n := StrLen(ret, Render(Denote(t), depth, fmt));
    var k := StrLen(str, Quote(t.key));
    n := n + k;
  }

  lemma NameHeld(t: Tree)
    requires WF(t) && t.name != null
    ensures IsCString(t.name, t.key)
  {
  }

  lemma MembersCostFrom(s: seq<Member>, i: nat, depth: nat, fmt: bool)
    requires i < |s|
    ensures MembersCost(s[i..], depth, fmt) ==
            |Render(s[i].value, depth, fmt)| + |Quote(s[i].key)| + 2 + (if fmt then 2 + depth else 0)
            + MembersCost(s[i + 1..], depth, fmt)
  {
    assert s[i..][1..] == s[i + 1..];
  }

  /** The second loop of print_object: copy names and values into the output. */
  method ComposeMembers(out: array<byte>, names: seq<array<byte>>, entries: seq<array<byte>>,
        ghost members: seq<Member>, depth: nat, fmt: bool)
    returns (ptr: nat)
    requires |entries| == |members| && NamedEntries(names, entries, members, depth, fmt) && out !in names
             && out !in entries
    requires |RenderMembers(members, depth, fmt)| + 3 < out.Length
    modifies out
    ensures ptr == 1 + |LineFeed(fmt)| + |RenderMembers(members, depth, fmt)|
    ensures out[..ptr] == [LBRACE] + LineFeed(fmt) + RenderMembers(members, depth, fmt)
  {
    hide Render, RenderMembers, RenderMember, Quote;
    ghost var text := [LBRACE] + LineFeed(fmt) + RenderMembers(members, depth, fmt);
    ptr := Put(out, 0, LBRACE);
    if fmt {
      ptr := Put(out, ptr, LF);
    }
    out[ptr] := NUL;
    var i := 0;
    assert members[0..] == members;
    while i < |entries|
      invariant 0 <= i <= |entries| && ptr + |RenderMembers(members[i..], depth, fmt)| == |text|
      invariant NamedEntries(names, entries, members, depth, fmt)
      invariant out[..ptr] + RenderMembers(members[i..], depth, fmt) == text
    {
      MembersFrom(members, i, depth, fmt);
      ptr := PutMember(out, ptr, names[i], entries[i], members[i], i == |entries| - 1, depth, fmt);
      i := i + 1;
    }
    NoEntries(depth, fmt);
    assert members[i..] == [];
  }

  /** What an entry contributes, with the comma and the line end behind it. */
  function Line(m: Member, last: bool, depth: nat, fmt: bool): seq<byte> {
    RenderMember(m, depth, fmt) + ((if last then [] else [COMMA]) + LineFeed(fmt))
  }

  lemma MembersFrom(s: seq<Member>, i: nat, depth: nat, fmt: bool)
    requires i < |s|
    ensures RenderMembers(s[i..], depth, fmt) ==
            Line(s[i], i == |s| - 1, depth, fmt) + RenderMembers(s[i + 1..], depth, fmt)
  {
    hide RenderMember;
    assert s[i..][1..] == s[i + 1..];
  }

  /** What precedes the value of an entry. */
  function KeyPart(key: seq<byte>, depth: nat, fmt: bool): seq<byte> {
    Indent(depth, fmt) + Quote(key) + [COLON] + Indent(1, fmt)
  }

  method PutKey(out: array<byte>, ptr: nat, name: array<byte>, ghost key: seq<byte>, depth: nat, fmt: bool)
    returns (next: nat)
    requires IsCString(name, Quote(key)) && name != out && ptr + |KeyPart(key, depth, fmt)| < out.Length
    modifies out
    ensures next == ptr + |KeyPart(key, depth, fmt)| && out[..next] == old(out[..ptr]) + KeyPart(key, depth, fmt)
  {
    hide Quote;
    ghost var pre := out[..ptr];
    next := ptr;
    if fmt {
      next := PutTabs(out, next, depth);
    }
    assert out[..next] == pre + Indent(depth, fmt);
    StrCpy(out, next, name, Quote(key));
    var n := StrLen(name, Quote(key));
    next := Put(out, next + n, COLON);
    if fmt {
      next := Put(out, next, TAB);
    }
  }

  /** One entry of an object: tabs, name, colon, tab, value, comma, line feed. */
  method PutMember(out: array<byte>, ptr: nat, name: array<byte>, entry: array<byte>, ghost m: Member, last: bool,
        depth: nat, fmt: bool)
    returns (next: nat)
    requires IsCString(name, Quote(m.key)) && IsCString(entry, Render(m.value, depth, fmt)) && name != out
             && entry != out
    requires ptr + |Line(m, last, depth, fmt)| < out.Length
    modifies out
    ensures next == ptr + |Line(m, last, depth, fmt)|
    ensures out[..next] == old(out[..ptr]) + Line(m, last, depth, fmt)
  {
    hide Render, Quote, KeyPart, RenderMember, IsCString;
    MemberParts(m, depth, fmt);
    ghost var pre, key, r := out[..ptr], KeyPart(m.key, depth, fmt), Render(m.value, depth, fmt);
    next := PutKey(out, ptr, name, m.key, depth, fmt);
    StrCpy(out, next, entry, r);
    var n := StrLen(entry, r);
    next := next + n;
    assert out[..next] == pre + (key + r);
    if !last {
      next := Put(out, next, COMMA);
    }
    if fmt {
      next := Put(out, next, LF);
    }
    out[next] := NUL;
  }

  lemma MemberParts(m: Member, depth: nat, fmt: bool)
    ensures RenderMember(m, depth, fmt) == KeyPart(m.key, depth, fmt) + Render(m.value, depth, fmt)
  {
    hide Render, Quote;
  }

  /** cJSON_Print and cJSON_PrintUnformatted. */
  method Print(item: Node, ghost t: Tree) returns (out: array<byte>)
    requires item == t.node && WF(t) && Printable(t)
    ensures fresh(out) && IsCString(out, Render(Denote(t), 0, true))
  {
    out := PrintValue(item, t, 0, true);
  }

  method PrintUnformatted(item: Node, ghost t: Tree) returns (out: array<byte>)
    requires item == t.node && WF(t) && Printable(t)
    ensures fresh(out) && IsCString(out, Render(Denote(t), 0, false))
  {
    out := PrintValue(item, t, 0, false);
  }
}
