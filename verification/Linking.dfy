/**
  Hanging children below a node, as the parser, the copier and the list
  functions do: the chain of children stays doubly linked.
 */
module Linking {
  import opened Trees

  /** Everything in a tree is new. */
  twostate predicate New(new t: Tree) {
    (forall n :: n in Nodes(t) ==> fresh(n)) && (forall a :: a in Buffers(t) ==> fresh(a))
  }

  ghost function Head(s: seq<Node>): Node? { if s == [] then null else s[0] }

  /** Hang a node behind the last child: on the level of the links alone. */
  method LinkNodes(parent: Node, last: Node?, child: Node, ghost s: seq<Node>)
    requires Siblings(s) && parent.child == Head(s) && last == (if s == [] then null else s[|s| - 1])
    requires child.next == null && child.prev == null && child !in s
    modifies parent`child, if last == null then {} else {last}`next, child`prev
    ensures Siblings(s + [child]) && parent.child == Head(s + [child])
  {
    if last != null {
      assert last.next == NodeAt(s, |s|);
      last.next := child;
      child.prev := last;
      forall i | 0 <= i < |s|
        ensures s[i].next == NodeAt(s + [child], i + 1) && s[i].prev == NodeAt(s + [child], i - 1)
      {
        assert old(s[i].next) == NodeAt(s, i + 1) && old(s[i].prev) == NodeAt(s, i - 1);
      }
    } else {
      parent.child := child;
    }
  }

  ghost function Last(s: seq<Tree>): Node? {
    if s == [] then null else s[|s| - 1].node
  }

  /** A node and its children, none of which are shared, while more children are added behind `last`. */
  ghost predicate Grows(t: Tree, last: Node?)
    reads t.node`kind, t.node`isReference, t.node`valueint, t.node`valuestring, t.node`name, t.node`child
    reads Buffers(t), NodesOf(t.kids)
  {
    && WF(t) && Apart(t) && !t.isReference && last == Last(t.kids)
    && t.node !in NodesOf(t.kids) && Heads(t.kids) !! Inner(t.kids)
  }

  lemma GrowsLast(t: Tree, last: Node?)
    requires Grows(t, last)
    ensures last == Last(t.kids)
  {
  }

  lemma GrowsFacts(t: Tree, last: Node?)
    requires Grows(t, last)
    ensures last == Last(t.kids) && (last != null ==> last in NodesOf(t.kids))
    ensures t.node !in NodesOf(t.kids) && WF(t) && Apart(t) && !t.isReference
  {
  }

  lemma GrowsFromLeaf(t: Tree)
    requires WF(t) && t.kids == [] && !t.isReference && (t.value == null || t.value != t.name)
    ensures Grows(t, null)
  {
  }

  /** `child` is linked behind the children of the node, but not yet accounted for. */
  ghost predicate Linked(t: Tree, child: Node)
    reads t.node`kind, t.node`isReference, t.node`valueint, t.node`valuestring, t.node`name, t.node`child
    reads Buffers(t), NodesOf(t.kids)
    reads child`next, child`prev
  {
    && HasContent(t) && WFList(t.kids) && Apart(t) && !t.isReference && child !in Nodes(t)
    && t.node !in NodesOf(t.kids) && Heads(t.kids) !! Inner(t.kids)
    && Siblings(Roots(t.kids) + [child]) && t.node.child == Head(Roots(t.kids) + [child])
  }

  /** The child linked last has become a tree of its own. */
  lemma Attach(t: Tree, k: Tree)
    requires Linked(t, k.node) && Grows(k, Last(k.kids)) && Nodes(t) !! Nodes(k) && Owned(t) !! Owned(k)
    ensures Grows(t.(kids := t.kids + [k]), k.node)
    ensures Owned(t.(kids := t.kids + [k])) == Owned(t) + Owned(k)
    ensures Nodes(t.(kids := t.kids + [k])) == Nodes(t) + Nodes(k)
    ensures Buffers(t.(kids := t.kids + [k])) == Buffers(t) + Buffers(k)
  {
    hide NodesOf, Inner, Heads, WFList, ApartList, OwnedOf, BuffersOf, Siblings;
    AppendSets(t.kids, k);
    AppendWF(t.kids, k);
    AppendApart(t.kids, k);
    var kids := t.kids + [k];
    assert Apart(t.(kids := kids));
    assert First(kids) == Head(Roots(kids)) && Last(kids) == k.node;
    assert WF(t.(kids := kids));
  }

  /** A parent has one more child, all of whose blocks are new. */
  twostate predicate Added(tr: Tree, new k: Tree, new tr': Tree)
  {
    && tr' == tr.(kids := tr.kids + [k]) && fresh(k.node)
    && (forall n :: n in Nodes(tr') ==> n in Nodes(tr) || fresh(n))
    && (forall a :: a in Buffers(tr') ==> a in Buffers(tr) || fresh(a))
  }

  /** The child linked last has become a tree of new blocks. */
  twostate lemma AttachNew(t: Tree, new k: Tree)
    requires Linked(t, k.node) && Grows(k, Last(k.kids)) && New(k)
    ensures Grows(t.(kids := t.kids + [k]), k.node) && Added(t, k, t.(kids := t.kids + [k]))
    ensures Owned(t.(kids := t.kids + [k])) == Owned(t) + Owned(k)
  {
    hide NodesOf, Nodes, Inner, Heads, WFList, ApartList, Apart, OwnedOf, Owned, BuffersOf, Buffers, Siblings, Grows,
      Linked;
    NotFresh(t);
    NodesAre(k);
    OwnedWithin(t);
    OwnedWithin(k);
    Attach(t, k);
  }

  /** Link a node behind the children, by `next` and `prev` or as the first child. */
  method LinkChild(parent: Node, last: Node?, child: Node, ghost t: Tree)
    requires t.node == parent && Grows(t, last) && child !in Nodes(t) && child.next == null && child.prev == null
    modifies parent`child, if last == null then {} else {last}`next, child`prev
    ensures Linked(t, child)
  {
    hide NodesOf, Nodes, Inner, Heads, WFList, ApartList, Apart, OwnedOf, Owned, BuffersOf, Buffers, Siblings;
    TreeAllocated(t);
    NodesAre(t);
    LinkNodes(parent, last, child, Roots(t.kids));
  }

  lemma NodesAre(t: Tree)
    ensures Nodes(t) == {t.node} + NodesOf(t.kids)
  {
  }

  /** Hang a whole new tree below a node. */
  method LinkTree(parent: Node, last: Node?, child: Node, ghost t: Tree, ghost k: Tree) returns (ghost t': Tree)
    requires t.node == parent && Grows(t, last) && k.node == child && Grows(k, Last(k.kids))
    requires child.next == null && child.prev == null
    requires Nodes(t) !! Nodes(k) && Owned(t) !! Owned(k)
    modifies parent`child, if last == null then {} else {last}`next, child`prev
    ensures t' == t.(kids := t.kids + [k]) && Grows(t', child)
    ensures Owned(t') == Owned(t) + Owned(k)
    ensures Nodes(t') == Nodes(t) + Nodes(k) && Buffers(t') == Buffers(t) + Buffers(k)
  {
    hide NodesOf, Nodes, WF, WFList, Apart, OwnedOf, Owned, BuffersOf, Buffers, Siblings, Grows, Linked;
    TreeAllocated(k);
    NodesAre(k);
    NodesAre(t);
    GrowsFacts(t, last);
    GrowsFacts(k, Last(k.kids));
    LinkChild(parent, last, child, t);
    Attach(t, k);
    t' := t.(kids := t.kids + [k]);
  }
}
