/**
  Parsing, copying, printing and minifying one after the other, as the clients of the engine do: the laws about
  values hold of the code that works on nodes and buffers.
 */
module Compositions {
  import opened Bytes
  import opened CStrings
  import opened Values
  import opened Grammar
  import opened RoundTrip
  import opened Syntax
  import opened Derivations
  import opened Conformance
  import opened ErrorPositions
  import opened Rfc8259
  import opened Minifier
  import opened MinifyLaws
  import opened Trees
  import opened Linking
  import opened Deletion
  import opened Duplication
  import opened Parser
  import opened Printer

  method PrintText(item: Node, fmt: bool, ghost tr: Tree) returns (out: array<byte>)
    requires item == tr.node && WF(tr) && Printable(tr)
    ensures fresh(out) && IsCString(out, Render(Denote(tr), 0, fmt))
  {
    if fmt {
      out := Print(item, tr);
    } else {
      out := PrintUnformatted(item, tr);
    }
  }

  /** Parse a text, print the tree in either layout, and delete it. A text that is not accepted prints as nothing. */
  method Reprint(lib: Library, t: seq<byte>, whole: bool, fmt: bool) returns (out: array?<byte>)
    requires NulFree(t) && !ReadText(t, whole).Outside?
    modifies lib
    ensures lib.live == old(lib.live) && (out != null <==> ReadText(t, whole).Parsed?)
    ensures out != null ==> fresh(out) && IsCString(out, Render(ReadText(t, whole).value, 0, fmt))
  {
    hide WF, WFList, Apart, Owned, Nodes, Buffers, Printable, Render, ReadValue, Denote;
    var c, end;
    ghost var tr;
    c, end, tr := ParseWithOpts(lib, t, whole);
    if c == null {
      return null;
    }
    OwnedWithin(tr);
    TreeAllocated(tr);
    out := PrintText(c, fmt, tr);
    DeleteItem(lib, c, tr);
  }

  /** The text in a buffer, as the parser reads it. */
  method Contents(a: array<byte>, ghost s: seq<byte>) returns (t: seq<byte>)
    requires IsCString(a, s)
    ensures t == s && NulFree(t)
  {
    var n := StrLen(a, s);
    t := a[..n];
  }

  /** The normal form: whatever is parsed and printed is accepted as a whole, and reprints to the same text. */
  method ReprintTwice(lib: Library, t: seq<byte>, whole: bool, fmt: bool)
    returns (first: array?<byte>, second: array?<byte>)
    requires NulFree(t) && !ReadText(t, whole).Outside?
    modifies lib
    ensures lib.live == old(lib.live) && (first != null <==> ReadText(t, whole).Parsed?)
    ensures first != null ==>
              var s := Render(ReadText(t, whole).value, 0, fmt);
              && second != null && fresh(first) && fresh(second) && IsCString(first, s) && IsCString(second, s)
              && ReadText(s, true) == Parsed(ReadText(t, whole).value, |s|)
  {
    hide Render, ReadText;
    second := null;
    first := Reprint(lib, t, whole, fmt);
    if first == null {
      return;
    }
    ghost var s := Render(ReadText(t, whole).value, 0, fmt);
    NormalForm(t, whole, fmt);
    var text := Contents(first, s);
    second := Reprint(lib, text, true, fmt);
  }

  /** Print a tree in either layout and parse the text: a new tree for the same value, and nothing else is left. */
  method PrintAndParse(lib: Library, item: Node, fmt: bool, whole: bool, ghost tr: Tree)
    returns (c: Node?, ghost r: Tree)
    requires item == tr.node && WF(tr) && Printable(tr)
    modifies lib
    ensures c != null && c == r.node && c.next == null && c.prev == null
    ensures WF(r) && Apart(r) && New(r) && Printable(r) && Denote(r) == Denote(tr)
    ensures lib.live == old(lib.live) + Owned(r)
  {
    hide WF, WFList, Apart, Owned, Nodes, Buffers, Printable, Render, ReadText, Denote;
    PrintableIsValid(tr);
    ParsePrint(Denote(tr), 0, fmt, whole);
    var out := PrintText(item, fmt, tr);
    var text := Contents(out, Render(Denote(tr), 0, fmt));
    var end;
    c, end, r := ParseWithOpts(lib, text, whole);
  }

  /** Parse a text that conforms to RFC 8259: it is accepted, and what is left is a new tree for its value. */
  method ParseConforming(lib: Library, t: seq<byte>) returns (c: Node?, ghost r: Tree)
    requires NulFree(t) && Conforms(t)
    modifies lib
    ensures c != null && c == r.node && WF(r) && Apart(r) && New(r) && lib.live == old(lib.live) + Owned(r)
    ensures ReadText(t, true).Parsed? && Loose(DeriveText(t).phrase) && Denote(r) == ValueOf(DeriveText(t).phrase)
  {
    hide WF, WFList, Apart, Owned, Nodes, Buffers, Printable, Denote, StrictItem, ReadText, Conforms, Loose, LooseItem;
    ConformingIsAccepted(t);
    TextDerived(t);
    LoosePhrase(DeriveText(t));
    var end;
    c, end, r := ParseWithOpts(lib, t, true);
  }

  /** Parse any text, and say of one that is rejected where it goes wrong: behind the longest part of it that begins a
      text of the grammar, or at the start of a misspelled word. */
  method ParseOrLocate(lib: Library, t: seq<byte>, whole: bool) returns (c: Node?, ghost r: Tree)
    requires NulFree(t) && !ReadText(t, whole).Outside?
    modifies lib
    ensures c != null ==> c == r.node && WF(r) && Apart(r) && New(r) && lib.live == old(lib.live) + Owned(r)
    ensures c == null ==> lib.live == old(lib.live) && 0 <= lib.ep <= |t| && Viable(t[..lib.ep])
    ensures c == null ==>
              forall n :: lib.ep < n <= |t| && Viable(t[..n]) ==>
                t[lib.ep] in {LOWER_N, LOWER_F, LOWER_T} && n <= lib.ep + 4
  {
    hide WF, WFList, Apart, Owned, Nodes, Buffers, Printable, Denote, ReadText, Viable;
    ReadTextInside(t, whole);
    if ReadText(t, whole).Failed? {
      ErrorPosition(t, whole);
    }
    var end;
    c, end, r := ParseWithOpts(lib, t, whole);
  }

  lemma ReadTextInside(t: seq<byte>, whole: bool)
    ensures ReadText(t, whole).Failed? ==> ReadText(t, whole).at <= |t|
  {
  }

  /** A copy prints alike. */
  method PrintCopy(lib: Library, item: Node, fmt: bool, ghost tr: Tree) returns (out: array<byte>)
    requires item == tr.node && WF(tr) && Printable(tr)
    modifies lib`live
    ensures lib.live == old(lib.live) && fresh(out) && IsCString(out, Render(Denote(tr), 0, fmt))
  {
    hide WF, WFList, Apart, Owned, Nodes, Buffers, Printable, Render, Denote, Copies;
    var copy;
    ghost var c;
    copy, c := Duplicate(lib, item, tr, true);
    CopyDenotes(c, tr);
    CopyPrintable(c, tr);
    GrowsFacts(c, Last(c.kids));
    OwnedWithin(c);
    TreeAllocated(c);
    out := PrintText(copy, fmt, c);
    DeleteItem(lib, copy, c);
  }

  /** Minifying what cJSON_Print has printed leaves what cJSON_PrintUnformatted prints. */
  method PrintAndMinify(item: Node, ghost tr: Tree) returns (out: array<byte>)
    requires item == tr.node && WF(tr) && Printable(tr)
    ensures fresh(out) && IsCString(out, Render(Denote(tr), 0, false))
  {
    hide WF, WFList, Printable, Render, Denote, Minify;
    PrintableIsValid(tr);
    out := Print(item, tr);
    MinifyPrint(Denote(tr), 0, true);
    MinifyInPlace(out, Render(Denote(tr), 0, true));
  }
}
