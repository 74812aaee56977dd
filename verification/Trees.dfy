/**
  The C structures: nodes linked by `next`, `prev` and `child`, the strings
  they point to, and the library's static state. A ghost `Tree` describes the
  structure that is reachable from a node, also through references; which part
  of it the node owns is a matter of `Owned`.
 */
module Trees {
  import opened Bytes
  import opened CStrings
  import opened Values

  datatype Kind = IsFalse | IsTrue | IsNull | IsNumber | IsString | IsArray | IsObject

  /** The cJSON struct. The type word is split into its kind and its reference flag. */
  class Node {
    var next: Node?
    var prev: Node?
    var child: Node?
    var kind: Kind
    var isReference: bool
    var valuestring: array?<byte>
    var valueint: int
    /** The `string` field: the name under which an object holds the item. */
    var name: array?<byte>

    /** cJSON_New_Item: all fields zero. */
    constructor ()
      ensures next == null && prev == null && child == null
      ensures kind == IsFalse && !isReference && valuestring == null && valueint == 0 && name == null
    {
      next, prev, child := null, null, null;
      kind, isReference, valuestring, valueint, name := IsFalse, false, null, 0, null;
    }
  }

  /** Static state of the library: the blocks handed out and not yet freed, and the error pointer. */
  class Library {
    var live: set<object>
    var ep: int

    constructor ()
      ensures live == {}
    {
      live, ep := {}, 0;
    }

    method NewItem() returns (n: Node)
      modifies this`live
      ensures fresh(n) && live == old(live) + {n}
      ensures n.next == null && n.prev == null && n.child == null
      ensures n.kind == IsFalse && !n.isReference && n.valuestring == null && n.valueint == 0 && n.name == null
    {
      n := new Node();
      live := live + {n};
    }

    /** Book a block that has just been allocated. */
    method Book(o: object)
      modifies this`live
      ensures live == old(live) + {o}
    {
      live := live + {o};
    }

    /** free: the block must be live, so no block is freed twice. */
    method Free(o: object)
      requires o in live
      modifies this`live
      ensures live == old(live) - {o}
    {
      live := live - {o};
    }
  }

  /** What a node and everything reachable from it look like. */
  datatype Tree = Tree(
    node: Node,
    kind: Kind,
    isReference: bool,
    num: int,
    value: array?<byte>,
    text: seq<byte>,
    name: array?<byte>,
    key: seq<byte>,
    kids: seq<Tree>)

  ghost function First(s: seq<Tree>): Node? {
    if s == [] then null else s[0].node
  }

  /** Where a walk over the siblings stands. */
  lemma FirstFrom(s: seq<Tree>, i: nat)
    requires i <= |s|
    ensures s[0..] == s
    ensures First(s[i..]) == if i < |s| then s[i].node else null
  {
  }

  /** The nodes of a sibling chain. */
  ghost function Roots(s: seq<Tree>): (r: seq<Node>)
    ensures |r| == |s| && forall i :: 0 <= i < |s| ==> r[i] == s[i].node
  {
    seq(|s|, i requires 0 <= i < |s| => s[i].node)
  }

  ghost function Heads(s: seq<Tree>): (r: set<Node>)
    ensures forall i :: 0 <= i < |s| ==> s[i].node in r
  {
    if s == [] then {} else {s[0].node} + Heads(s[1..])
  }

  ghost function Nodes(t: Tree): set<Node>
    decreases t, 2
  {
    {t.node} + NodesOf(t.kids)
  }

  ghost function NodesOf(s: seq<Tree>): (r: set<Node>)
    ensures forall i :: 0 <= i < |s| ==> s[i].node in r
    ensures Heads(s) <= r && Inner(s) <= r
    decreases s, 1
  {
    if s == [] then {} else Nodes(s[0]) + NodesOf(s[1..])
  }

  /** The nodes strictly below a sibling chain. */
  ghost function Inner(s: seq<Tree>): set<Node>
    decreases s, 0
  {
    if s == [] then {} else NodesOf(s[0].kids) + Inner(s[1..])
  }

  ghost function Buffer(a: array?<byte>): set<array<byte>> {
    if a == null then {} else {a}
  }

  ghost function Buffers(t: Tree): set<array<byte>>
    decreases t, 1
  {
    Buffer(t.value) + Buffer(t.name) + BuffersOf(t.kids)
  }

  ghost function BuffersOf(s: seq<Tree>): set<array<byte>>
    decreases s, 0
  {
    if s == [] then {} else Buffers(s[0]) + BuffersOf(s[1..])
  }

  /** Whatever a tree mentions has been allocated. */
  lemma {:induction false} TreeAllocated(t: Tree)
    ensures allocated(t.node) && allocated(t.value) && allocated(t.name)
    ensures forall n :: n in Nodes(t) ==> allocated(n)
    ensures forall n :: n in NodesOf(t.kids) ==> allocated(n)
    ensures forall a :: a in Buffers(t) ==> allocated(a)
    ensures forall a :: a in BuffersOf(t.kids) ==> allocated(a)
    decreases t, 1
  {
    TreesAllocated(t.kids);
  }

  lemma {:induction false} TreesAllocated(s: seq<Tree>)
    ensures forall n :: n in NodesOf(s) ==> allocated(n)
    ensures forall a :: a in BuffersOf(s) ==> allocated(a)
    decreases s, 0
  {
    if s != [] {
      TreeAllocated(s[0]);
      TreesAllocated(s[1..]);
    }
  }

  /** And had been before, if the tree had. */
  twostate lemma {:induction false} NotFresh(t: Tree)
    ensures forall n :: n in Nodes(t) ==> !fresh(n)
    ensures forall a :: a in Buffers(t) ==> !fresh(a)
    decreases t, 1
  {
    NoneFresh(t.kids);
  }

  twostate lemma {:induction false} NoneFresh(s: seq<Tree>)
    ensures forall n :: n in NodesOf(s) ==> !fresh(n)
    ensures forall a :: a in BuffersOf(s) ==> !fresh(a)
    decreases s, 0
  {
    if s != [] {
      NotFresh(s[0]);
      NoneFresh(s[1..]);
    }
  }

  ghost predicate Holds(a: array?<byte>, s: seq<byte>)
    reads a
  {
    if a == null then s == [] else IsCString(a, s)
  }

  ghost function NodeAt(s: seq<Node>, i: int): Node? {
    if 0 <= i < |s| then s[i] else null
  }

  /** A doubly linked chain: head without a predecessor, neighbours mutually linked. */
  ghost predicate Siblings(s: seq<Node>)
    reads s`next, s`prev
  {
    && (forall i {:trigger s[i].next} :: 0 <= i < |s| ==> s[i].next == NodeAt(s, i + 1))
    && (forall i {:trigger s[i].prev} :: 0 <= i < |s| ==> s[i].prev == NodeAt(s, i - 1))
  }

  /** The node's own fields are as `t` says. */
  ghost predicate HasContent(t: Tree)
    reads t.node`kind, t.node`isReference, t.node`valueint, t.node`valuestring, t.node`name, t.value, t.name
  {
    && t.node.kind == t.kind && t.node.isReference == t.isReference && t.node.valueint == t.num
    && t.node.valuestring == t.value && t.node.name == t.name
    && Holds(t.value, t.text) && Holds(t.name, t.key)
  }

  /** The heap below `t.node` is as `t` says. The node's own `next` and `prev` are its parent's business. */
  ghost predicate WF(t: Tree)
    reads t.node`kind, t.node`isReference, t.node`valueint, t.node`valuestring, t.node`name, t.node`child
    reads Buffers(t), NodesOf(t.kids)
    decreases t, 1
  {
    HasContent(t) && t.node.child == First(t.kids) && Siblings(Roots(t.kids)) && WFList(t.kids)
  }

  ghost predicate WFList(s: seq<Tree>)
    reads Heads(s)`kind, Heads(s)`isReference, Heads(s)`valueint, Heads(s)`valuestring, Heads(s)`name, Heads(s)`child
    reads BuffersOf(s), Inner(s)
    decreases s, 0
  {
    s == [] || (WF(s[0]) && WFList(s[1..]))
  }

  // ----- Ownership

  /** The blocks a tree owns: its nodes and strings, but of a reference only the node and its name. */
  ghost function Owned(t: Tree): set<object>
    decreases t, 1
  {
    {t.node} + Buffer(t.name) + (if t.isReference then {} else Buffer(t.value) + OwnedOf(t.kids))
  }

  ghost function OwnedOf(s: seq<Tree>): set<object>
    decreases s, 0
  {
    if s == [] then {} else Owned(s[0]) + OwnedOf(s[1..])
  }

  /** No block is owned twice. */
  ghost predicate Apart(t: Tree)
    decreases t, 1
  {
    && (t.name != null ==> t.isReference || t.name != t.value)
    && (!t.isReference ==> ApartList(t.kids) && (Buffer(t.name) + Buffer(t.value) + {t.node}) !! OwnedOf(t.kids))
  }

  ghost predicate ApartList(s: seq<Tree>)
    decreases s, 0
  {
    s == [] || (Apart(s[0]) && ApartList(s[1..]) && Owned(s[0]) !! OwnedOf(s[1..]))
  }

  lemma {:induction false} OwnedWithin(t: Tree)
    ensures {t.node} + Buffer(t.name) <= Owned(t)
    ensures forall o :: o in Owned(t) ==> o in Nodes(t) || o in Buffers(t)
    decreases t, 1
  {
    OwnedOfWithin(t.kids);
  }

  lemma {:induction false} OwnedOfWithin(s: seq<Tree>)
    ensures forall o :: o in OwnedOf(s) ==> o in NodesOf(s) || o in BuffersOf(s)
    decreases s, 0
  {
    if s != [] {
      OwnedWithin(s[0]);
      OwnedOfWithin(s[1..]);
    }
  }

  /** The owned part of the heap below `t.node` is as `t` says; what a reference shares is not looked at. */
  ghost predicate Owns(t: Tree)
    reads Nodes(t)
    decreases t, 1
  {
    && t.node.isReference == t.isReference && t.node.valuestring == t.value && t.node.name == t.name
    && (!t.isReference ==> t.node.child == First(t.kids) && OwnsList(t.kids))
  }

  /** Only the `next` links of a chain matter to those who walk it. */
  ghost predicate OwnsList(s: seq<Tree>)
    reads NodesOf(s)
    decreases s, 0
  {
    s == [] || (s[0].node.next == First(s[1..]) && Owns(s[0]) && OwnsList(s[1..]))
  }

  /** A node without children. */
  lemma Leaf(t: Tree)
    requires t.kids == []
    ensures Nodes(t) == {t.node} && Buffers(t) == Buffer(t.value) + Buffer(t.name)
    ensures forall a :: a in Buffers(t) ==> a == t.value || a == t.name
    ensures forall o :: o in Owned(t) ==> o == t.node || o == t.value || o == t.name
    ensures !t.isReference ==> Owned(t) == {t.node} + Buffer(t.value) + Buffer(t.name)
    ensures t.value == null || t.name != t.value ==> Apart(t)
  {
  }

  lemma Content(t: Tree)
    requires WF(t)
    ensures HasContent(t) && t.node.child == First(t.kids)
  {
  }

  lemma LeafWF(t: Tree)
    requires t.kids == [] && t.node.child == null && HasContent(t)
    ensures WF(t)
  {
  }

  /** One of the children. */
  lemma {:induction false} Kid(t: Tree, i: nat)
    requires WF(t) && i < |t.kids|
    ensures WF(t.kids[i]) && t.kids[i].node.next == First(t.kids[i + 1..])
    ensures Nodes(t.kids[i]) <= NodesOf(t.kids)
  {
    assert Roots(t.kids)[i] == t.kids[i].node;
    KidOf(t.kids, i);
  }

  lemma {:induction false} KidOf(s: seq<Tree>, i: nat)
    requires WFList(s) && i < |s|
    ensures WF(s[i]) && Nodes(s[i]) <= NodesOf(s)
    decreases i
  {
    if i > 0 {
      assert s[i] == s[1..][i - 1];
      KidOf(s[1..], i - 1);
    }
  }

  // ----- Appending a tree to a list of siblings

  lemma {:induction false} AppendSets(s: seq<Tree>, k: Tree)
    ensures Heads(s + [k]) == Heads(s) + {k.node}
    ensures Inner(s + [k]) == Inner(s) + NodesOf(k.kids)
    ensures NodesOf(s + [k]) == NodesOf(s) + Nodes(k)
    ensures BuffersOf(s + [k]) == BuffersOf(s) + Buffers(k)
    ensures OwnedOf(s + [k]) == OwnedOf(s) + Owned(k)
    ensures Roots(s + [k]) == Roots(s) + [k.node]
    decreases |s|
  {
    hide Nodes, Buffers, Owned;
    if s == [] {
      assert [k][1..] == [];
    } else {
      assert (s + [k])[1..] == s[1..] + [k];
      AppendSets(s[1..], k);
    }
  }

  lemma {:induction false} AppendApart(s: seq<Tree>, k: Tree)
    requires ApartList(s) && Apart(k) && OwnedOf(s) !! Owned(k)
    ensures ApartList(s + [k])
    decreases |s|
  {
    if s == [] {
      assert [k][1..] == [];
    } else {
      assert (s + [k])[1..] == s[1..] + [k];
      AppendSets(s[1..], k);
      AppendApart(s[1..], k);
    }
  }

  lemma {:induction false} AppendWF(s: seq<Tree>, k: Tree)
    requires WFList(s) && WF(k)
    ensures WFList(s + [k])
    decreases |s|
  {
    if s == [] {
      assert [k][1..] == [];
    } else {
      assert (s + [k])[1..] == s[1..] + [k];
      AppendWF(s[1..], k);
    }
  }

  /** The value a tree stands for. */
  ghost function Denote(t: Tree): Json
    decreases t, 1
  {
    match t.kind
    case IsFalse => False
    case IsTrue => True
    case IsNull => Null
    case IsNumber => Number(t.num)
    case IsString => String(t.text)
    case IsArray => Array(DenoteItems(t.kids))
    case IsObject => Object(DenoteMembers(t.kids))
  }

  ghost function DenoteItems(s: seq<Tree>): (r: seq<Json>)
    ensures |r| == |s|
    decreases s, 0
  {
    if s == [] then [] else [Denote(s[0])] + DenoteItems(s[1..])
  }

  ghost function DenoteMembers(s: seq<Tree>): (r: seq<Member>)
    ensures |r| == |s|
    decreases s, 0
  {
    if s == [] then [] else [Member(s[0].key, Denote(s[0]))] + DenoteMembers(s[1..])
  }

  lemma {:induction false} AppendDenote(s: seq<Tree>, k: Tree)
    ensures DenoteItems(s + [k]) == DenoteItems(s) + [Denote(k)]
    ensures DenoteMembers(s + [k]) == DenoteMembers(s) + [Member(k.key, Denote(k))]
    decreases |s|
  {
    if s == [] {
      assert [k][1..] == [];
    } else {
      assert (s + [k])[1..] == s[1..] + [k];
      AppendDenote(s[1..], k);
    }
  }

  // ----- What can be printed

  /** Numbers are 32-bit, string items have a string, and the entries of objects have names. */
  ghost predicate Printable(t: Tree)
    decreases t, 1
  {
    match t.kind
    case IsNumber => IsInt32(t.num)
    case IsString => t.value != null
    case IsArray => PrintableList(t.kids, false)
    case IsObject => PrintableList(t.kids, true)
    case _ => true
  }

  ghost predicate PrintableList(s: seq<Tree>, named: bool)
    decreases s, 0
  {
    s == [] || ((named ==> s[0].name != null) && Printable(s[0]) && PrintableList(s[1..], named))
  }

  lemma {:induction false} AppendPrintable(s: seq<Tree>, k: Tree, named: bool)
    ensures PrintableList(s + [k], named) <==> PrintableList(s, named) && Printable(k) && (named ==> k.name != null)
    decreases |s|
  {
    if s == [] {
      assert [k][1..] == [];
    } else {
      assert (s + [k])[1..] == s[1..] + [k];
      AppendPrintable(s[1..], k, named);
    }
  }
}
