/**
  The array functions: append, detach and replace on the chain of children of
  a node. Each refines one operation on sequences, and the chain stays an
  acyclic doubly linked list over every run of them.
 */
module ListOps {
  import opened Sequences
  import opened Trees
  import opened Linking
  import opened Deletion

  // ----- The operations on sequences

  datatype Op<T> = Append(item: T) | Detach(which: int) | Replace(which: int, item: T)

  /** The walk to position `which` stops at the head when `which` is negative. */
  function Index(which: int): nat { if which < 0 then 0 else which }

  /** What an operation makes of the chain; beyond its end nothing is detached or replaced. */
  function Apply<T>(s: seq<T>, op: Op<T>): (r: seq<T>) {
    match op
    case Append(item) => s + [item]
    case Detach(which) => if Index(which) < |s| then Without(s, Index(which)) else s
    case Replace(which, item) => if Index(which) < |s| then s[Index(which) := item] else s
  }

  function Run<T>(s: seq<T>, ops: seq<Op<T>>): (r: seq<T>)
    decreases |ops|
  {
    if ops == [] then s else Run(Apply(s, ops[0]), ops[1..])
  }

  predicate Distinct<T(==)>(s: seq<T>) {
    forall i, j :: 0 <= i < j < |s| ==> s[i] != s[j]
  }

  /** Only items that are not in the chain at the time are put into it. */
  predicate Legal<T(==)>(s: seq<T>, ops: seq<Op<T>>)
    decreases |ops|
  {
    ops == [] || ((ops[0].Detach? || ops[0].item !in s) && Legal(Apply(s, ops[0]), ops[1..]))
  }

  /** The items an operation puts in and takes out. */
  function In<T>(s: seq<T>, op: Op<T>): (r: multiset<T>) {
    match op
    case Append(item) => multiset{item}
    case Detach(_) => multiset{}
    case Replace(which, item) => if Index(which) < |s| then multiset{item} else multiset{}
  }

  function Out<T>(s: seq<T>, op: Op<T>): (r: multiset<T>) {
    if !op.Append? && Index(op.which) < |s| then multiset{s[Index(op.which)]} else multiset{}
  }

  function RunIn<T>(s: seq<T>, ops: seq<Op<T>>): multiset<T>
    decreases |ops|
  {
    if ops == [] then multiset{} else In(s, ops[0]) + RunIn(Apply(s, ops[0]), ops[1..])
  }

  function RunOut<T>(s: seq<T>, ops: seq<Op<T>>): multiset<T>
    decreases |ops|
  {
    if ops == [] then multiset{} else Out(s, ops[0]) + RunOut(Apply(s, ops[0]), ops[1..])
  }

  /** An operation, position by position. A negative position is the first one. */
  lemma StepAt<T>(s: seq<T>, op: Op<T>)
    ensures var r := Apply(s, op);
            match op
            case Append(item) => |r| == |s| + 1 && r[|s|] == item && forall i :: 0 <= i < |s| ==> r[i] == s[i]
            case Detach(which) =>
              if which >= |s| || s == [] then r == s
              else
                && |r| == |s| - 1 && (which < 0 ==> r == Apply(s, Detach(0)))
                && (which >= 0 ==> forall i :: 0 <= i < |r| ==> r[i] == s[if i < which then i else i + 1])
            case Replace(which, item) =>
              if which >= |s| || s == [] then r == s
              else
                && |r| == |s| && (which < 0 ==> r == Apply(s, Replace(0, item)))
                && (which >= 0 ==> forall i :: 0 <= i < |r| ==> r[i] == if i == which then item else s[i])
  {
  }

  lemma StepConserves<T>(s: seq<T>, op: Op<T>)
    ensures multiset(Apply(s, op)) + Out(s, op) == multiset(s) + In(s, op)
  {
    if !op.Append? && Index(op.which) < |s| {
      var i := Index(op.which);
      assert s == s[..i] + [s[i]] + s[i + 1..];
      if op.Replace? {
        assert s[i := op.item] == s[..i] + [op.item] + s[i + 1..];
      }
    }
  }

  lemma StepDistinct<T>(s: seq<T>, op: Op<T>)
    requires Distinct(s) && (op.Detach? || op.item !in s)
    ensures Distinct(Apply(s, op))
  {
  }

  lemma Rearrange<T>(r: multiset<T>, ro: multiset<T>, s': multiset<T>, ri: multiset<T>, o: multiset<T>, s: multiset<T>,
        i: multiset<T>)
    requires r + ro == s' + ri && s' + o == s + i
    ensures r + (o + ro) == s + (i + ri)
  {
    assert r + (o + ro) == r + ro + o == s' + o + ri;
  }

  /** Over every run: what is in the chain at the end, and what has been taken out, is what was there at the
      start and what has been put in; and no item is ever in the chain twice. */
  lemma {:induction false} RunConserves<T>(s: seq<T>, ops: seq<Op<T>>)
    requires Distinct(s) && Legal(s, ops)
    ensures Distinct(Run(s, ops))
    ensures multiset(Run(s, ops)) + RunOut(s, ops) == multiset(s) + RunIn(s, ops)
    decreases |ops|
  {
    if ops != [] {
      var s', rest := Apply(s, ops[0]), ops[1..];
      StepDistinct(s, ops[0]);
      StepConserves(s, ops[0]);
      RunConserves(s', rest);
      Rearrange(multiset(Run(s', rest)), RunOut(s', rest), multiset(s'), RunIn(s', rest), Out(s, ops[0]),
                multiset(s), In(s, ops[0]));
    }
  }

  // ----- The operations on nodes

  /** The children of `parent` are the nodes of `s`, in this order. */
  ghost predicate Chain(parent: Node, s: seq<Node>)
    reads parent, s
  {
    parent.child == Head(s) && Siblings(s) && parent !in s
  }

  /** Mutual links leave no room for a cycle. */
  lemma SiblingsDistinct(s: seq<Node>)
    requires Siblings(s)
    ensures Distinct(s)
  {
    forall i, j | 0 <= i < j < |s| ensures s[i] != s[j] {
      NotTwice(s, i, j);
    }
  }

  lemma {:induction false} NotTwice(s: seq<Node>, i: nat, j: nat)
    requires Siblings(s) && i < j < |s|
    ensures s[i] != s[j]
    decreases i
  {
    assert s[i].prev == NodeAt(s, i - 1) && s[j].prev == NodeAt(s, j - 1);
    if i > 0 {
      NotTwice(s, i - 1, j - 1);
    }
  }

  method GetArraySize(parent: Node, ghost s: seq<Node>) returns (i: nat)
    requires Chain(parent, s)
    ensures i == |s|
  {
    var c := parent.child;
    i := 0;
    while c != null
      invariant i <= |s| && c == NodeAt(s, i)
      decreases |s| - i
    {
      assert s[i].next == NodeAt(s, i + 1);
      i, c := i + 1, c.next;
    }
  }

  /** The walk shared by the functions that take a position. */
  method GetArrayItem(parent: Node, which: int, ghost s: seq<Node>) returns (c: Node?)
    requires Chain(parent, s)
    ensures c == NodeAt(s, Index(which))
    ensures c == if s == [] || which >= |s| then null else if which < 0 then s[0] else s[which]
  {
    var item := which;
    c := parent.child;
    ghost var i := 0;
    while c != null && item > 0
      invariant 0 <= i <= |s| && c == NodeAt(s, i)
      invariant if which > 0 then item == which - i >= 0 else i == 0 && item == which
      decreases |s| - i
    {
      assert s[i].next == NodeAt(s, i + 1);
      item, c := item - 1, c.next;
      i := i + 1;
    }
  }

  method AddItemToArray(parent: Node, item: Node?, ghost s: seq<Node>)
    requires Chain(parent, s)
    requires item != null ==> item !in s && item != parent && item.next == null && item.prev == null
    modifies parent`child, s`next, if item == null then {} else {item}`prev
    ensures item == null ==> Chain(parent, s)
    ensures item != null ==> Chain(parent, Apply<Node>(s, Append(item)))
  {
    var c := parent.child;
    if item == null {
      return;
    }
    if c == null {
      LinkNodes(parent, null, item, s);
    } else {
      ghost var i := 0;
      while c.next != null
        invariant 0 <= i < |s| && c == s[i]
        decreases |s| - i
      {
        assert s[i].next == NodeAt(s, i + 1);
        i, c := i + 1, c.next;
      }
      assert s[i].next == NodeAt(s, i + 1);
      LinkNodes(parent, c, item, s);
    }
  }

  /** Take a node out of the chain. The node keeps no links. */
  method DetachItemFromArray(parent: Node, which: int, ghost s: seq<Node>) returns (c: Node?)
    requires Chain(parent, s)
    modifies parent`child, s`next, s`prev
    ensures c == NodeAt(s, Index(which)) && (c != null ==> c.next == null && c.prev == null)
    ensures Chain(parent, Apply(s, Detach(which)))
  {
    c := GetArrayItem(parent, which, s);
    if c == null {
      return;
    }
    Remove(parent, c, s, Index(which));
  }

  /** The pointer surgery of a removal. */
  method Remove(parent: Node, c: Node, ghost s: seq<Node>, ghost k: int)
    requires Chain(parent, s) && 0 <= k < |s| && c == s[k]
    modifies parent`child, s`next, s`prev
    ensures c.next == null && c.prev == null && Chain(parent, Without(s, k))
  {
    SiblingsDistinct(s);
    assert c.next == NodeAt(s, k + 1) && c.prev == NodeAt(s, k - 1);
    if c.prev != null {
      c.prev.next := c.next;
    }
    if c.next != null {
      c.next.prev := c.prev;
    }
    if c == parent.child {
      parent.child := c.next;
    }
    c.prev, c.next := null, null;
    ghost var r := Without(s, k);
    forall i | 0 <= i < |r|
      ensures r[i].next == NodeAt(r, i + 1) && r[i].prev == NodeAt(r, i - 1)
    {
      var j := if i < k then i else i + 1;
      assert old(s[j].next) == NodeAt(s, j + 1) && old(s[j].prev) == NodeAt(s, j - 1);
    }
  }

  /** Put a node in the place of another, which is deleted with all it owns. */
  method ReplaceItemInArray(lib: Library, parent: Node, which: int, newitem: Node, ghost s: seq<Node>, ghost dead: Tree)
    requires Chain(parent, s) && newitem !in s && newitem != parent
    requires Index(which) < |s| ==>
               && dead.node == s[Index(which)] && WF(dead) && Apart(dead) && Owned(dead) <= lib.live
               && newitem !in NodesOf(dead.kids) && parent !in NodesOf(dead.kids)
               && forall n :: n in NodesOf(dead.kids) ==> n !in s
    modifies lib`live, parent`child, s`next, s`prev, newitem`next, newitem`prev
    ensures Chain(parent, Apply(s, Replace(which, newitem)))
    ensures lib.live == old(lib.live) - if Index(which) < |s| then Owned(dead) else {}
    ensures Index(which) >= |s| ==> unchanged(newitem)
  {
    hide Nodes, NodesOf, WF, WFList, Siblings, Apart, Owned, Buffers, BuffersOf, Chain, Near;
    TreeAllocated(dead);
    var c := GetArrayItem(parent, which, s);
    if c == null {
      return;
    }
    Neighbours(parent, s, Index(which));
    Exchange(parent, c, newitem, s, Index(which));
    DeleteItem(lib, c, dead);
  }

  ghost function Near(n: Node?): set<Node> { if n == null then {} else {n} }

  lemma Neighbours(parent: Node, s: seq<Node>, i: nat)
    requires Chain(parent, s) && i < |s|
    ensures parent !in s
    ensures forall n :: n in Near(s[i].next) || n in Near(s[i].prev) ==> n in s
  {
  }

  /** The pointer surgery of a replacement. */
  method Exchange(parent: Node, c: Node, newitem: Node, ghost s: seq<Node>, ghost k: int)
    requires Chain(parent, s) && newitem !in s && newitem != parent && 0 <= k < |s| && c == s[k]
    modifies parent`child, c`next, c`prev, newitem`next, newitem`prev, Near(c.prev)`next, Near(c.next)`prev
    ensures Chain(parent, s[k := newitem]) && c.next == null && c.prev == null
  {
    SiblingsDistinct(s);
    assert c.next == NodeAt(s, k + 1) && c.prev == NodeAt(s, k - 1);
    newitem.next := c.next;
    newitem.prev := c.prev;
    if newitem.next != null {
      newitem.next.prev := newitem;
    }
    if c == parent.child {
      parent.child := newitem;
    } else {
      newitem.prev.next := newitem;
    }
    c.next, c.prev := null, null;
    ghost var r := s[k := newitem];
    forall i | 0 <= i < |r|
      ensures r[i].next == NodeAt(r, i + 1) && r[i].prev == NodeAt(r, i - 1)
    {
      assert old(s[i].next) == NodeAt(s, i + 1) && old(s[i].prev) == NodeAt(s, i - 1);
    }
  }
}
