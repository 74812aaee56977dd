/**
  cJSON_Duplicate and create_reference.
 */
module Duplication {
  import opened Bytes
  import opened CStrings
  import opened Trees
  import opened Deletion
  import opened Linking

  /** The copy has the same content as the original, shares nothing with it by reference, and every node
      in it owns what is below. */
  ghost predicate Copies(c: Tree, t: Tree)
    decreases t, 1
  {
    && c.kind == t.kind && !c.isReference && c.num == t.num
    && (c.value == null <==> t.value == null) && c.text == t.text
    && (c.name == null <==> t.name == null) && c.key == t.key
    && CopiesList(c.kids, t.kids)
  }

  ghost predicate CopiesList(c: seq<Tree>, s: seq<Tree>)
    decreases s, 0
  {
    |c| == |s| && (s == [] || (Copies(c[0], s[0]) && CopiesList(c[1..], s[1..])))
  }

  lemma CopiesLeaf(c: Tree, t: Tree)
    requires c.kind == t.kind && !c.isReference && c.num == t.num && c.text == t.text && c.key == t.key && c.kids == []
    requires (c.value == null <==> t.value == null) && (c.name == null <==> t.name == null)
    ensures Copies(c, t.(kids := []))
  {
  }

  lemma {:induction false} AppendCopies(c: seq<Tree>, k: Tree, s: seq<Tree>, t: Tree)
    requires CopiesList(c, s) && Copies(k, t)
    ensures CopiesList(c + [k], s + [t])
    decreases |s|
  {
    if s == [] {
      assert [k][1..] == [] && [t][1..] == [];
    } else {
      assert (c + [k])[1..] == c[1..] + [k] && (s + [t])[1..] == s[1..] + [t];
      AppendCopies(c[1..], k, s[1..], t);
    }
  }

  lemma {:induction false} CopiesMore(c: Tree, s: Tree, k: Tree, t: Tree)
    requires Copies(c, s) && Copies(k, t)
    ensures Copies(c.(kids := c.kids + [k]), s.(kids := s.kids + [t]))
  {
    hide CopiesList;
    AppendCopies(c.kids, k, s.kids, t);
  }

  /** A copy stands for the same value, hence prints alike. */
  lemma {:induction false} CopyDenotes(c: Tree, t: Tree)
    requires Copies(c, t)
    ensures Denote(c) == Denote(t)
    decreases t, 1
  {
    CopiesDenote(c.kids, t.kids);
  }

  lemma {:induction false} CopiesDenote(c: seq<Tree>, s: seq<Tree>)
    requires CopiesList(c, s)
    ensures DenoteItems(c) == DenoteItems(s) && DenoteMembers(c) == DenoteMembers(s)
    decreases s, 0
  {
    if s != [] {
      CopyDenotes(c[0], s[0]);
      CopiesDenote(c[1..], s[1..]);
    }
  }

  /** And can be printed if the original can. */
  lemma {:induction false} CopyPrintable(c: Tree, t: Tree)
    requires Copies(c, t) && Printable(t)
    ensures Printable(c)
    decreases t, 1
  {
    if t.kind.IsArray? || t.kind.IsObject? {
      CopiesPrintable(c.kids, t.kids, t.kind.IsObject?);
    }
  }

  lemma {:induction false} CopiesPrintable(c: seq<Tree>, s: seq<Tree>, named: bool)
    requires CopiesList(c, s) && PrintableList(s, named)
    ensures PrintableList(c, named)
    decreases s, 0
  {
    if s != [] {
      CopyPrintable(c[0], s[0]);
      CopiesPrintable(c[1..], s[1..], named);
    }
  }

  /** cJSON_strdup of a string that may be missing. */
  method CopyString(lib: Library, a: array?<byte>, ghost s: seq<byte>) returns (r: array?<byte>)
    requires Holds(a, s)
    modifies lib`live
    ensures (r == null <==> a == null) && (r != null ==> fresh(r)) && Holds(r, s)
    ensures lib.live == old(lib.live) + Buffer(r)
  {
    r := null;
    if a != null {
      r := StrDup(a, s);
      lib.Book(r);
    }
  }

  /** A childless node that owns its own strings. */
  lemma ChildlessCopy(copy: Tree, t: Tree)
    requires HasContent(copy) && copy.kids == [] && copy.node.child == null
    requires copy == t.(node := copy.node, isReference := false, value := copy.value, name := copy.name, kids := [])
    requires (copy.value == null <==> t.value == null) && (copy.name == null <==> t.name == null)
    requires copy.value == null || copy.value != copy.name
    ensures Grows(copy, null) && Copies(copy, t.(kids := []))
    ensures Nodes(copy) == {copy.node} && Buffers(copy) == Buffer(copy.value) + Buffer(copy.name)
    ensures Owned(copy) == {copy.node} + Buffer(copy.value) + Buffer(copy.name)
  {
    hide Grows;
    Leaf(copy);
    LeafWF(copy);
    GrowsFromLeaf(copy);
    CopiesLeaf(copy, t);
  }

  /** A new node with the content of `item`, and no children yet. */
  method CopyContent(lib: Library, item: Node, ghost t: Tree) returns (newitem: Node, ghost copy: Tree)
    requires item == t.node && WF(t)
    modifies lib`live
    ensures copy.node == newitem && Grows(copy, null) && newitem.next == null && newitem.prev == null && fresh(newitem)
    ensures Copies(copy, t.(kids := [])) && copy.kids == [] && New(copy)
    ensures lib.live == old(lib.live) + Owned(copy)
  {
    hide Nodes, Buffers, Owned, Apart, WF, Holds, Grows, Copies;
    Content(t);
    TreeAllocated(t);
    newitem := lib.NewItem();
    var value := CopyString(lib, item.valuestring, t.text);
    var name := CopyString(lib, item.name, t.key);
    copy := Fill(newitem, item, value, name, t);
    ChildlessCopy(copy, t);
  }

  /** Copy the fields, except the reference flag. */
  method Fill(newitem: Node, item: Node, value: array?<byte>, name: array?<byte>, ghost t: Tree)
    returns (ghost copy: Tree)
    requires item == t.node && item != newitem && HasContent(t) && Holds(value, t.text) && Holds(name, t.key)
    modifies newitem`kind, newitem`isReference, newitem`valueint, newitem`valuestring, newitem`name
    ensures copy == t.(node := newitem, isReference := false, value := value, name := name, kids := [])
    ensures HasContent(copy)
  {
    newitem.kind, newitem.isReference, newitem.valueint := item.kind, false, item.valueint;
    newitem.valuestring, newitem.name := value, name;
    copy := t.(node := newitem, isReference := false, value := value, name := name, kids := []);
  }

  /** cJSON_Duplicate. The copy consists of new blocks only, owns all of them, and carries the same content;
      the original, also where it is shared by references, is not touched. */
  method Duplicate(lib: Library, item: Node, ghost t: Tree, recurse: bool) returns (newitem: Node, ghost copy: Tree)
    requires item == t.node && WF(t)
    modifies lib`live
    ensures copy.node == newitem && newitem.next == null && newitem.prev == null && fresh(newitem)
    ensures Copies(copy, if recurse then t else t.(kids := []))
    ensures Grows(copy, Last(copy.kids)) && New(copy)
    ensures lib.live == old(lib.live) + Owned(copy)
    decreases t, 2
  {
    hide NodesOf, WFList, WF, Apart, OwnedOf, Owned, Nodes, Buffers, BuffersOf, Siblings, CopiesList, Copies, Grows,
      HasContent, Holds, Last;
    TreeAllocated(t);
    newitem, copy := CopyContent(lib, item, t);
    if !recurse {
      GrowsLast(copy, null);
      return;
    }
    copy := DuplicateChildren(lib, item, t, newitem, copy);
  }

  /** The loop over the children. */
  method DuplicateChildren(lib: Library, item: Node, ghost t: Tree, newitem: Node, ghost bare: Tree)
    returns (ghost copy: Tree)
    requires item == t.node && WF(t) && newitem == bare.node && newitem !in Nodes(t)
    requires newitem.next == null && newitem.prev == null
    requires Grows(bare, null) && bare.kids == [] && Copies(bare, t.(kids := [])) && Owned(bare) <= lib.live
    modifies lib`live, newitem`child
    ensures copy.node == newitem && Copies(copy, t) && Grows(copy, Last(copy.kids))
    ensures forall n :: n in Nodes(copy) ==> n in Nodes(bare) || fresh(n)
    ensures forall a :: a in Buffers(copy) ==> a in Buffers(bare) || fresh(a)
    ensures lib.live == old(lib.live) + Owned(copy) && Owned(bare) <= Owned(copy)
    decreases t, 0
  {
    hide NodesOf, WFList, WF, Apart, OwnedOf, Owned, Nodes, Buffers, BuffersOf, Siblings, CopiesList, Copies, Grows,
      HasContent, Holds, Last, First;
    TreeAllocated(t);
    NodesAre(t);
    TreeAllocated(bare);
    Content(t);
    copy := bare;
    var cptr := item.child;
    var nptr: Node? := null;
    ghost var i := 0;
    FirstFrom(t.kids, 0);
    assert t.kids[..0] == [];
    while cptr != null
      invariant 0 <= i <= |t.kids| && cptr == First(t.kids[i..]) && WF(t)
      invariant copy.node == newitem && Copies(copy, t.(kids := t.kids[..i]))
      invariant Grows(copy, nptr) && (nptr != null ==> fresh(nptr))
      invariant forall n :: n in Nodes(copy) ==> n in Nodes(bare) || fresh(n)
      invariant forall a :: a in Buffers(copy) ==> a in Buffers(bare) || fresh(a)
      invariant lib.live == old(lib.live) + Owned(copy) && Owned(bare) <= Owned(copy)
      decreases |t.kids| - i
    {
      FirstFrom(t.kids, i);
      Kid(t, i);
      TreeAllocated(copy);
      assert t.kids[..i + 1] == t.kids[..i] + [t.kids[i]];
      nptr, copy := DuplicateChild(lib, cptr, t.kids[i], newitem, nptr, copy, t.(kids := t.kids[..i]));
      Kid(t, i);
      cptr, i := cptr.next, i + 1;
    }
    FirstFrom(t.kids, i);
    assert t.kids[..i] == t.kids;
    GrowsLast(copy, nptr);
  }

  /** The body of the loop: copy one child and hang it behind the last one. */
  method DuplicateChild(lib: Library, cptr: Node, ghost kid: Tree, newitem: Node, nptr: Node?, ghost copy: Tree,
        ghost t: Tree)
    returns (newchild: Node, ghost copy': Tree)
    requires cptr == kid.node && WF(kid) && copy.node == newitem && Grows(copy, nptr) && Copies(copy, t)
    requires Owned(copy) <= lib.live
    modifies lib`live, newitem`child, if nptr == null then {} else {nptr}`next
    ensures copy'.node == newitem && Grows(copy', newchild) && Copies(copy', t.(kids := t.kids + [kid]))
    ensures fresh(newchild)
    ensures forall n :: n in Nodes(copy') ==> n in Nodes(copy) || fresh(n)
    ensures forall a :: a in Buffers(copy') ==> a in Buffers(copy) || fresh(a)
    ensures lib.live == old(lib.live) + Owned(copy') && Owned(copy) <= Owned(copy')
    decreases kid, 3
  {
    hide NodesOf, WFList, WF, Apart, OwnedOf, Owned, Nodes, Buffers, BuffersOf, Siblings, CopiesList, Copies, Grows;
    TreeAllocated(copy);
    OwnedWithin(copy);
    ghost var k;
    newchild, k := Duplicate(lib, cptr, kid, true);
    OwnedWithin(k);
    CopiesMore(copy, t, k, kid);
    copy' := LinkTree(newitem, nptr, newchild, copy, k);
  }

  /** Copying and deleting the copy leaves exactly the blocks that were there before. */
  method DuplicateAndDelete(lib: Library, item: Node, ghost t: Tree)
    requires item == t.node && WF(t)
    modifies lib`live
    ensures lib.live == old(lib.live) && WF(t)
  {
    TreeAllocated(t);
    var newitem, copy := Duplicate(lib, item, t, true);
    OwnedWithin(copy);
    DeleteItem(lib, newitem, copy);
  }

  /** create_reference: a node that shares the string and the children of another and owns only itself. */
  method CreateReference(lib: Library, item: Node, ghost t: Tree) returns (ref: Node, ghost r: Tree)
    requires item == t.node && WF(t)
    modifies lib`live
    ensures fresh(ref) && ref.next == null && ref.prev == null
    ensures r == t.(node := ref, isReference := true, name := null, key := [])
    ensures WF(r) && Apart(r) && Owned(r) == {ref} && Denote(r) == Denote(t)
    ensures lib.live == old(lib.live) + {ref} && WF(t)
  {
    hide NodesOf, WFList, OwnedOf, BuffersOf, Siblings, Holds;
    TreeAllocated(t);
    ref := lib.NewItem();
    ref.child, ref.kind, ref.valuestring, ref.valueint := item.child, item.kind, item.valuestring, item.valueint;
    ref.isReference := true;
    r := t.(node := ref, isReference := true, name := null, key := []);
    assert Holds(null, []) by { NothingHeld(); }
    assert WF(t);
    assert HasContent(r) && WFList(r.kids) && Siblings(Roots(r.kids));
  }

  lemma NothingHeld()
    ensures Holds(null, [])
  {
  }

  /** Deleting a reference frees its node and nothing of what it shares. */
  method ReferenceAndDelete(lib: Library, item: Node, ghost t: Tree)
    requires item == t.node && WF(t)
    modifies lib`live
    ensures lib.live == old(lib.live) && WF(t)
  {
    var ref, r := CreateReference(lib, item, t);
    TreeAllocated(t);
    DeleteItem(lib, ref, r);
  }
}
