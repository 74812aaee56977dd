/**
  cJSON_Delete.
 */
module Deletion {
  import opened Trees

  /** cJSON_Delete: every block of the chain that it owns is freed, exactly once, and nothing else is. */
  method Delete(lib: Library, c: Node?, ghost s: seq<Tree>)
    requires c == First(s) && OwnsList(s) && ApartList(s) && OwnedOf(s) <= lib.live
    modifies lib`live
    ensures lib.live == old(lib.live) - OwnedOf(s)
    decreases s, 1
  {
    TreesAllocated(s);
    var c := c;
    ghost var i := 0;
    while c != null
      invariant 0 <= i <= |s| && c == First(s[i..]) && OwnsList(s[i..]) && ApartList(s[i..])
      invariant OwnedOf(s[i..]) <= lib.live && OwnedOf(s[i..]) <= OwnedOf(s)
      invariant lib.live == old(lib.live) - OwnedOf(s) + OwnedOf(s[i..])
      decreases |s| - i
    {
      ghost var rest := s[i + 1..];
      assert c in lib.live;
      assert s[i..][1..] == rest;
      assert OwnsList(rest) && OwnedOf(s[i..]) == Owned(s[i]) + OwnedOf(rest);
      var next := c.next;
      TreesAllocated(rest);
      DeleteNode(lib, c, s[i]);
      c, i := next, i + 1;
    }
  }

  /** The body of the loop: a node is freed after what it owns. */
  method DeleteNode(lib: Library, c: Node, ghost t: Tree)
    requires c == t.node && Owns(t) && Apart(t) && Owned(t) <= lib.live
    modifies lib`live
    ensures lib.live == old(lib.live) - Owned(t)
    decreases t, 0
  {
    if !c.isReference && c.child != null {
      Delete(lib, c.child, t.kids);
    }
    assert c in lib.live;
    if !c.isReference && c.valuestring != null {
      lib.Free(c.valuestring);
    }
    if c.name != null {
      lib.Free(c.name);
    }
    lib.Free(c);
  }

  // ----- What well-formed structures offer to Delete

  lemma {:induction false} WFOwns(t: Tree)
    requires WF(t)
    ensures Owns(t)
    decreases t, 1
  {
    WFOwnsFrom(t.kids, 0);
    assert t.kids[0..] == t.kids;
  }

  lemma {:induction false} WFOwnsFrom(s: seq<Tree>, i: nat)
    requires i <= |s| && WFList(s) && Siblings(Roots(s))
    ensures OwnsList(s[i..])
    decreases s, 0, |s| - i
  {
    if i < |s| {
      KidOf(s, i);
      WFOwns(s[i]);
      WFOwnsFrom(s, i + 1);
      assert s[i..][1..] == s[i + 1..];
      assert Roots(s)[i].next == NodeAt(Roots(s), i + 1);
    }
  }

  lemma Single(t: Tree)
    ensures OwnedOf([t]) == Owned(t) && (Apart(t) ==> ApartList([t]))
  {
    assert [t][1..] == [];
  }

  /** cJSON_Delete of a single item. */
  method DeleteItem(lib: Library, c: Node, ghost t: Tree)
    requires c == t.node && c.next == null && WF(t) && Apart(t) && Owned(t) <= lib.live
    modifies lib`live
    ensures lib.live == old(lib.live) - Owned(t)
  {
    WFOwns(t);
    Single(t);
    assert [t][1..] == [];
    Delete(lib, c, [t]);
  }
}
