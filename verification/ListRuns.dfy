/**
  Whole runs of append, detach and replace on the children of a node.
 */
module ListRuns {
  import opened Bytes
  import opened Values
  import opened Trees
  import opened Deletion
  import opened ListOps

  /** The items a run may use, with what is below each of them. No item is below another one or above the parent,
      and none owns a block of another one. References may share what is below them. */
  ghost predicate Supply(trees: map<Node, Tree>, parent: Node) {
    && parent !in trees
    && (forall n :: n in trees ==> trees[n].node == n && Apart(trees[n]) && parent !in NodesOf(trees[n].kids))
    && (forall n, m :: n in trees && m in trees ==> m !in NodesOf(trees[n].kids))
    && (forall n, m :: n in trees && m in trees && n != m ==> Owned(trees[n]) !! Owned(trees[m]))
  }

  /** The nodes below the items. */
  ghost function Below(trees: map<Node, Tree>): set<Node> {
    set n, o | n in trees && o in NodesOf(trees[n].kids) :: o
  }

  ghost function Strings(trees: map<Node, Tree>): set<array<byte>> {
    set n, o | n in trees && o in Buffers(trees[n]) :: o
  }

  ghost predicate AllWF(trees: map<Node, Tree>)
    reads trees.Keys`kind, trees.Keys`isReference, trees.Keys`valueint, trees.Keys`valuestring, trees.Keys`name,
          trees.Keys`child
    reads Below(trees), Strings(trees)
  {
    forall n :: n in trees && trees[n].node == n ==> WF(trees[n])
  }

  /** Items in the chain and spare items own their blocks, and spare items are not linked. */
  ghost predicate Stocked(lib: Library, trees: map<Node, Tree>, s: seq<Node>, gone: set<Node>)
    reads lib, trees.Keys
  {
    && (forall n :: n in s ==> n in trees && n !in gone)
    && (forall n :: n in trees && n !in gone ==> Owned(trees[n]) <= lib.live)
    && (forall n :: n in trees && n !in gone && n !in s ==> n.next == null && n.prev == null)
  }

  /** An item that a replacement has deleted. */
  function Dropped(s: seq<Node>, op: Op<Node>): set<Node> {
    if op.Replace? && Index(op.which) < |s| then {s[Index(op.which)]} else {}
  }

  /** Only items that are spare at the time are put into the chain. */
  predicate Usable(s: seq<Node>, gone: set<Node>, ops: seq<Op<Node>>, items: set<Node>)
    decreases |ops|
  {
    ops == [] || ((ops[0].Detach? || (ops[0].item in items && ops[0].item !in s && ops[0].item !in gone))
                  && Usable(Apply(s, ops[0]), gone + Dropped(s, ops[0]), ops[1..], items))
  }

  /** All items that a run deletes. */
  function AllDropped(s: seq<Node>, ops: seq<Op<Node>>): set<Node>
    decreases |ops|
  {
    if ops == [] then {} else Dropped(s, ops[0]) + AllDropped(Apply(s, ops[0]), ops[1..])
  }

  ghost function OwnedBy(trees: map<Node, Tree>, items: set<Node>): set<object> {
    set n, o | n in items && n in trees && o in Owned(trees[n]) :: o
  }

  lemma SupplyAllocated(trees: map<Node, Tree>, parent: Node)
    requires Supply(trees, parent)
    ensures parent !in trees && Below(trees) !! trees.Keys && parent !in Below(trees)
    ensures forall m :: m in Below(trees) ==> allocated(m)
    ensures forall a :: a in Strings(trees) ==> allocated(a)
  {
    forall m | m in Below(trees) ensures allocated(m) {
      var n :| n in trees && m in NodesOf(trees[n].kids);
      TreeAllocated(trees[n]);
    }
    forall a | a in Strings(trees) ensures allocated(a) {
      var n :| n in trees && a in Buffers(trees[n]);
      TreeAllocated(trees[n]);
    }
  }

  /** What is needed to replace an item, and thereby delete it. */
  lemma Replaceable(lib: Library, trees: map<Node, Tree>, parent: Node, s: seq<Node>, gone: set<Node>, n: Node)
    requires Supply(trees, parent) && AllWF(trees) && Stocked(lib, trees, s, gone) && n in s
    ensures n in trees && trees[n].node == n && WF(trees[n]) && Apart(trees[n]) && Owned(trees[n]) <= lib.live
    ensures OwnedBy(trees, {n}) == Owned(trees[n]) && parent !in NodesOf(trees[n].kids)
    ensures forall m :: m in NodesOf(trees[n].kids) ==> m !in trees
    ensures forall m :: m in trees && m != n ==> Owned(trees[n]) !! Owned(trees[m])
  {
    hide WF, Apart, Owned, NodesOf;
  }

  lemma ChainDistinct(parent: Node, s: seq<Node>)
    requires Chain(parent, s)
    ensures Distinct(s)
  {
    SiblingsDistinct(s);
  }

  /** Which nodes are in the chain after an operation. */
  lemma Members(s: seq<Node>, op: Op<Node>)
    requires Distinct(s)
    ensures !op.Append? && Index(op.which) >= |s| ==> Apply(s, op) == s
    ensures forall n :: n in Apply(s, op) ==> n in s || (!op.Detach? && n == op.item)
    ensures !op.Append? && Index(op.which) < |s| && (op.Replace? ==> op.item !in s) ==>
            s[Index(op.which)] !in Apply(s, op)
    ensures forall n :: n in s ==>
              n in Apply(s, op) || (!op.Append? && Index(op.which) < |s| && n == s[Index(op.which)])
    ensures op.Append? || (op.Replace? && Index(op.which) < |s|) ==> op.item in Apply(s, op)
  {
    if !op.Append? && Index(op.which) < |s| {
      var i := Index(op.which);
      assert s == s[..i] + [s[i]] + s[i + 1..];
      if op.Replace? {
        assert s[i := op.item] == s[..i] + [op.item] + s[i + 1..];
      }
    }
  }

  method PerformAppend(lib: Library, parent: Node, item: Node, ghost s: seq<Node>, ghost gone: set<Node>,
        ghost trees: map<Node, Tree>)
    requires Supply(trees, parent) && AllWF(trees) && Chain(parent, s) && Stocked(lib, trees, s, gone)
    requires item in trees && item !in s && item !in gone
    modifies parent`child, trees.Keys`next, trees.Keys`prev
    ensures Chain(parent, Apply(s, Append(item))) && AllWF(trees) && Stocked(lib, trees, Apply(s, Append(item)), gone)
  {
    hide Supply, WF, Apart, Owned, NodesOf, Buffers, AllWF, Chain, Apply, Distinct;
    SupplyAllocated(trees, parent);
    ChainDistinct(parent, s);
    Members(s, Append(item));
    AddItemToArray(parent, item, s);
  }

  method PerformDetach(lib: Library, parent: Node, which: int, ghost s: seq<Node>, ghost gone: set<Node>,
        ghost trees: map<Node, Tree>)
    requires Supply(trees, parent) && AllWF(trees) && Chain(parent, s) && Stocked(lib, trees, s, gone)
    modifies parent`child, trees.Keys`next, trees.Keys`prev
    ensures Chain(parent, Apply(s, Detach(which))) && AllWF(trees) && Stocked(lib, trees, Apply(s, Detach(which)), gone)
  {
    hide Supply, WF, Apart, Owned, NodesOf, Buffers, AllWF, Chain, Apply, Distinct;
    SupplyAllocated(trees, parent);
    ChainDistinct(parent, s);
    Members(s, Detach(which));
    var c := DetachItemFromArray(parent, which, s);
  }

  method PerformReplace(lib: Library, parent: Node, which: int, item: Node, ghost s: seq<Node>, ghost gone: set<Node>,
        ghost trees: map<Node, Tree>)
    requires Supply(trees, parent) && AllWF(trees) && Chain(parent, s) && Stocked(lib, trees, s, gone)
    requires item in trees && item !in s && item !in gone
    modifies lib`live, parent`child, trees.Keys`next, trees.Keys`prev
    ensures var op := Replace(which, item);
            && Chain(parent, Apply(s, op)) && AllWF(trees) && Stocked(lib, trees, Apply(s, op), gone + Dropped(s, op))
            && lib.live == old(lib.live) - OwnedBy(trees, Dropped(s, op))
  {
    hide Supply, WF, Apart, Owned, NodesOf, Buffers, AllWF, Chain, Apply, Distinct;
    SupplyAllocated(trees, parent);
    ChainDistinct(parent, s);
    Members(s, Replace(which, item));
    ghost var dead := if Index(which) < |s| then trees[s[Index(which)]] else trees[item];
    if Index(which) < |s| {
      Replaceable(lib, trees, parent, s, gone, s[Index(which)]);
    }
    ReplaceItemInArray(lib, parent, which, item, s, dead);
  }

  method Perform(lib: Library, parent: Node, op: Op<Node>, ghost s: seq<Node>, ghost gone: set<Node>,
        ghost trees: map<Node, Tree>)
    requires Supply(trees, parent) && AllWF(trees) && Chain(parent, s) && Stocked(lib, trees, s, gone)
    requires op.Detach? || (op.item in trees && op.item !in s && op.item !in gone)
    modifies lib`live, parent`child, trees.Keys`next, trees.Keys`prev
    ensures Chain(parent, Apply(s, op)) && AllWF(trees) && Stocked(lib, trees, Apply(s, op), gone + Dropped(s, op))
    ensures lib.live == old(lib.live) - OwnedBy(trees, Dropped(s, op))
  {
    hide Supply, AllWF, Chain, Stocked, Apply;
    NothingOwned(trees);
    assert gone + {} == gone;
    match op
    case Append(item) => PerformAppend(lib, parent, item, s, gone, trees);
    case Detach(which) => PerformDetach(lib, parent, which, s, gone, trees);
    case Replace(which, item) => PerformReplace(lib, parent, which, item, s, gone, trees);
  }

  lemma NothingOwned(trees: map<Node, Tree>)
    ensures OwnedBy(trees, {}) == {}
  {
  }

  lemma OwnedTogether(trees: map<Node, Tree>, a: set<Node>, b: set<Node>)
    ensures OwnedBy(trees, a + b) == OwnedBy(trees, a) + OwnedBy(trees, b)
  {
  }

  /** The items of a chain as trees. */
  ghost function Kids(trees: map<Node, Tree>, s: seq<Node>): (r: seq<Tree>)
    requires forall n :: n in s ==> n in trees
    ensures |r| == |s| && forall i :: 0 <= i < |s| ==> r[i] == trees[s[i]]
  {
    if s == [] then [] else [trees[s[0]]] + Kids(trees, s[1..])
  }

  lemma {:induction false} KidsWF(trees: map<Node, Tree>, s: seq<Node>)
    requires (forall n :: n in s ==> n in trees && trees[n].node == n) && AllWF(trees)
    ensures WFList(Kids(trees, s)) && Roots(Kids(trees, s)) == s
  {
    hide WF;
    if s != [] {
      KidsWF(trees, s[1..]);
      assert Kids(trees, s)[1..] == Kids(trees, s[1..]);
    }
  }

  lemma {:induction false} KidsOwned(trees: map<Node, Tree>, s: seq<Node>)
    requires forall n :: n in s ==> n in trees
    ensures OwnedOf(Kids(trees, s)) == OwnedBy(trees, set n | n in s)
  {
    hide Owned;
    if s != [] {
      KidsOwned(trees, s[1..]);
      assert Kids(trees, s)[1..] == Kids(trees, s[1..]);
      assert (set n | n in s) == {s[0]} + (set n | n in s[1..]);
    }
  }

  /** The values of the items of a chain. */
  ghost function Meanings(trees: map<Node, Tree>, s: seq<Node>): (r: seq<Json>)
    requires forall n :: n in s ==> n in trees
    ensures |r| == |s| && forall i :: 0 <= i < |s| ==> r[i] == Denote(trees[s[i]])
  {
    if s == [] then [] else [Denote(trees[s[0]])] + Meanings(trees, s[1..])
  }

  /** And with their names. */
  ghost function NamedMeanings(trees: map<Node, Tree>, s: seq<Node>): (r: seq<Member>)
    requires forall n :: n in s ==> n in trees
    ensures |r| == |s| && forall i :: 0 <= i < |s| ==> r[i] == Member(trees[s[i]].key, Denote(trees[s[i]]))
  {
    if s == [] then [] else [Member(trees[s[0]].key, Denote(trees[s[0]]))] + NamedMeanings(trees, s[1..])
  }

  lemma {:induction false} KidsDenote(trees: map<Node, Tree>, s: seq<Node>)
    requires forall n :: n in s ==> n in trees
    ensures DenoteItems(Kids(trees, s)) == Meanings(trees, s)
    ensures DenoteMembers(Kids(trees, s)) == NamedMeanings(trees, s)
  {
    hide Denote;
    if s != [] {
      KidsDenote(trees, s[1..]);
      assert Kids(trees, s)[1..] == Kids(trees, s[1..]);
    }
  }

  lemma {:induction false} KidsApart(trees: map<Node, Tree>, parent: Node, s: seq<Node>)
    requires Supply(trees, parent) && Distinct(s) && forall n :: n in s ==> n in trees
    ensures ApartList(Kids(trees, s))
  {
    hide Owned, Apart, NodesOf;
    if s != [] {
      KidsApart(trees, parent, s[1..]);
      KidsOwned(trees, s[1..]);
      assert Kids(trees, s)[1..] == Kids(trees, s[1..]);
      assert s[0] !in s[1..];
    }
  }

  /** A node whose children are the items of a chain, as a tree. */
  ghost predicate HasKids(trees: map<Node, Tree>, s: seq<Node>, t: Tree, t': Tree)
    reads t'.node`kind, t'.node`isReference, t'.node`valueint, t'.node`valuestring, t'.node`name, t'.node`child
    reads Buffers(t'), NodesOf(t'.kids)
  {
    && (forall n :: n in s ==> n in trees) && t' == t.(kids := Kids(trees, s)) && WF(t')
    && ApartList(t'.kids) && OwnedOf(t'.kids) == OwnedBy(trees, set n | n in s)
    && (t.kind.IsArray? ==> Denote(t') == Array(Meanings(trees, s)))
    && (t.kind.IsObject? ==> Denote(t') == Object(NamedMeanings(trees, s)))
  }

  /** Any node with the chain as its children is such a tree. */
  lemma WithKids(lib: Library, parent: Node, trees: map<Node, Tree>, s: seq<Node>, gone: set<Node>, t: Tree)
    requires Supply(trees, parent) && AllWF(trees) && Stocked(lib, trees, s, gone)
    requires HasContent(t) && Chain(t.node, s)
    ensures forall n :: n in s ==> n in trees
    ensures HasKids(trees, s, t, t.(kids := Kids(trees, s)))
  {
    hide Supply, AllWF, Stocked, HasContent, Chain, Distinct, ApartList, Owned, OwnedBy, OwnedOf, WF, Kids, Meanings,
      NamedMeanings, DenoteItems, DenoteMembers;
    InStock(lib, trees, parent, s, gone);
    KidsWF(trees, s);
    KidsOwned(trees, s);
    KidsDenote(trees, s);
    ChainDistinct(t.node, s);
    KidsApart(trees, parent, s);
    ParentWF(t, t.(kids := Kids(trees, s)), s);
  }

  lemma InStock(lib: Library, trees: map<Node, Tree>, parent: Node, s: seq<Node>, gone: set<Node>)
    requires Supply(trees, parent) && Stocked(lib, trees, s, gone)
    ensures forall n :: n in s ==> n in trees && trees[n].node == n
  {
  }

  lemma ParentWF(t: Tree, t': Tree, s: seq<Node>)
    requires HasContent(t) && t' == t.(kids := t'.kids) && Chain(t.node, s) && Roots(t'.kids) == s && WFList(t'.kids)
    ensures WF(t')
  {
  }

  /** The loop over the operations. */
  method PerformAll(lib: Library, parent: Node, ops: seq<Op<Node>>, ghost s: seq<Node>, ghost trees: map<Node, Tree>)
    requires Supply(trees, parent) && AllWF(trees) && Chain(parent, s) && Stocked(lib, trees, s, {})
    requires Usable(s, {}, ops, trees.Keys)
    modifies lib`live, parent`child, trees.Keys`next, trees.Keys`prev
    ensures Chain(parent, Run(s, ops)) && lib.live == old(lib.live) - OwnedBy(trees, AllDropped(s, ops))
    ensures AllWF(trees) && Stocked(lib, trees, Run(s, ops), AllDropped(s, ops))
  {
    hide Supply, AllWF, Stocked, Apply, Chain, OwnedBy;
    ghost var now, gone := s, {};
    NothingOwned(trees);
    assert ops[0..] == ops;
    for i := 0 to |ops|
      invariant AllWF(trees) && Chain(parent, now) && Stocked(lib, trees, now, gone)
      invariant Usable(now, gone, ops[i..], trees.Keys)
      invariant Run(now, ops[i..]) == Run(s, ops) && gone + AllDropped(now, ops[i..]) == AllDropped(s, ops)
      invariant lib.live == old(lib.live) - OwnedBy(trees, gone)
    {
      assert ops[i..][1..] == ops[i + 1..] && ops[i..][0] == ops[i];
      Perform(lib, parent, ops[i], now, gone, trees);
      OwnedTogether(trees, gone, Dropped(now, ops[i]));
      gone := gone + Dropped(now, ops[i]);
      now := Apply(now, ops[i]);
    }
  }

  /** Any run. The children of the parent become what the run makes of the sequence; exactly the items replaced are
      deleted, with all they own; and the parent is a well-formed tree with the children it has then. */
  method PerformRun(lib: Library, parent: Node, ops: seq<Op<Node>>, ghost s: seq<Node>, ghost trees: map<Node, Tree>,
        ghost t: Tree)
    returns (ghost t': Tree)
    requires Supply(trees, parent) && AllWF(trees) && Chain(parent, s) && Stocked(lib, trees, s, {})
    requires Usable(s, {}, ops, trees.Keys) && t.node == parent && HasContent(t)
    modifies lib`live, parent`child, trees.Keys`next, trees.Keys`prev
    ensures Chain(parent, Run(s, ops)) && lib.live == old(lib.live) - OwnedBy(trees, AllDropped(s, ops))
    ensures AllWF(trees) && Stocked(lib, trees, Run(s, ops), AllDropped(s, ops))
    ensures HasKids(trees, Run(s, ops), t, t')
  {
    hide Supply, AllWF, Stocked, Usable, Apply, HasContent, Chain, Run, HasKids, OwnedBy;
    PerformAll(lib, parent, ops, s, trees);
    WithKids(lib, parent, trees, Run(s, ops), AllDropped(s, ops), t);
    t' := t.(kids := Kids(trees, Run(s, ops)));
  }

  /** The parent's own blocks. A reference does not own its string. */
  ghost function Own(t: Tree): set<object> {
    {t.node} + Buffer(t.name) + (if t.isReference then {} else Buffer(t.value))
  }

  /** The items that go with the parent: none with a reference. */
  ghost function Taken(t: Tree, s: seq<Node>): set<Node> {
    if t.isReference then {} else set n | n in s
  }

  lemma OwnedAfter(lib: Library, trees: map<Node, Tree>, t: Tree, s: seq<Node>, gone: set<Node>)
    requires Stocked(lib, trees, s, gone) && OwnedOf(t.kids) == OwnedBy(trees, set n | n in s) && ApartList(t.kids)
    requires Own(t) <= lib.live && Own(t) !! OwnedBy(trees, trees.Keys)
    requires t.name != null ==> t.isReference || t.name != t.value
    ensures Apart(t) && Owned(t) == Own(t) + OwnedBy(trees, Taken(t, s)) && Owned(t) <= lib.live
  {
    hide ApartList;
    assert OwnedBy(trees, set n | n in s) <= OwnedBy(trees, trees.Keys);
  }

  lemma OwnedBySome(trees: map<Node, Tree>, items: set<Node>)
    ensures OwnedBy(trees, items) <= OwnedBy(trees, trees.Keys)
  {
  }

  /** A run and then the deletion of the parent: freed are the parent's own blocks, the items replaced on the way
      and, unless the parent is a reference, those in the chain at the end. The items taken out stay with the
      caller. */
  method RunAndDelete(lib: Library, parent: Node, ops: seq<Op<Node>>, ghost s: seq<Node>, ghost trees: map<Node, Tree>,
        ghost t: Tree)
    requires Supply(trees, parent) && AllWF(trees) && Chain(parent, s) && Stocked(lib, trees, s, {})
    requires Usable(s, {}, ops, trees.Keys) && t.node == parent && HasContent(t)
    requires parent.next == null && Own(t) <= lib.live && Own(t) !! OwnedBy(trees, trees.Keys)
    requires t.name != null ==> t.isReference || t.name != t.value
    modifies lib`live, parent`child, trees.Keys`next, trees.Keys`prev
    ensures lib.live == old(lib.live) - Own(t) - OwnedBy(trees, AllDropped(s, ops) + Taken(t, Run(s, ops)))
  {
    hide AllWF, Usable, HasContent, ApartList, Apart, Owned, WF, Run, Chain, Stocked, OwnedBy;
    ghost var t' := PerformRun(lib, parent, ops, s, trees, t);
    OwnedBySome(trees, AllDropped(s, ops));
    OwnedAfter(lib, trees, t', Run(s, ops), AllDropped(s, ops));
    OwnedTogether(trees, AllDropped(s, ops), Taken(t, Run(s, ops)));
    DeleteItem(lib, parent, t');
  }

  // ----- A small run

  /** A node as it comes from the allocator. */
  ghost function Plain(n: Node): Tree {
    Tree(n, IsFalse, false, 0, null, [], null, [], [])
  }

  ghost function PlainTrees(items: set<Node>): map<Node, Tree> {
    map n | n in items :: Plain(n)
  }

  lemma PlainSupply(lib: Library, parent: Node, items: set<Node>)
    requires parent !in items && items <= lib.live
    requires forall n :: n in items ==>
               && n.next == null && n.prev == null && n.child == null && n.kind == IsFalse && !n.isReference
               && n.valuestring == null && n.valueint == 0 && n.name == null
    ensures var trees := PlainTrees(items);
            && Supply(trees, parent) && AllWF(trees) && Stocked(lib, trees, [], {}) && trees.Keys == items
            && forall some :: some <= items ==> OwnedBy(trees, some) == some
  {
    forall n | n in items
      ensures Apart(Plain(n)) && Owned(Plain(n)) == {n} && NodesOf(Plain(n).kids) == {} && WF(Plain(n))
    {
      Leaf(Plain(n));
      LeafWF(Plain(n));
    }
  }

  lemma NoChildren(parent: Node)
    requires parent.child == null
    ensures Chain(parent, [])
  {
  }

  /** One operation in front of others. */
  lemma RunStep(s: seq<Node>, gone: set<Node>, op: Op<Node>, rest: seq<Op<Node>>, items: set<Node>)
    ensures Run(s, [op] + rest) == Run(Apply(s, op), rest)
    ensures AllDropped(s, [op] + rest) == Dropped(s, op) + AllDropped(Apply(s, op), rest)
    ensures Usable(s, gone, [op] + rest, items) <==>
              && (op.Detach? || (op.item in items && op.item !in s && op.item !in gone))
              && Usable(Apply(s, op), gone + Dropped(s, op), rest, items)
  {
    assert ([op] + rest)[1..] == rest;
  }

  function SmallOps(a: Node, b: Node, c: Node): seq<Op<Node>> {
    [Append(a)] + ([Append(b)] + ([Replace(0, c)] + ([Detach(1)] + [])))
  }

  lemma SmallOpsRun(a: Node, b: Node, c: Node)
    requires a != b && b != c && a != c
    ensures Usable([], {}, SmallOps(a, b, c), {a, b, c})
    ensures Run([], SmallOps(a, b, c)) == [c] && AllDropped([], SmallOps(a, b, c)) == {a}
  {
    hide Run, Usable, AllDropped;
    var items, end := {a, b, c}, [];
    assert Run([c], end) == [c] && Usable([c], {a}, end, items) && AllDropped([c], end) == {} by {
      NoOps([c], {a}, items);
    }
    assert Apply([], Append(a)) == [a] && Apply([a], Append(b)) == [a, b];
    assert Apply([a, b], Replace(0, c)) == [c, b] && Apply([c, b], Detach(1)) == [c];
    var none: set<Node> := {};
    assert {a} + none == {a} && none + {a} == {a} && none + none == none;
    assert Dropped([c, b], Detach(1)) == Dropped([a], Append(b)) == Dropped([], Append(a)) == none;
    assert Dropped([a, b], Replace(0, c)) == {a};
    RunStep([c, b], {a}, Detach(1), end, items);
    RunStep([a, b], {}, Replace(0, c), [Detach(1)] + end, items);
    RunStep([a], {}, Append(b), [Replace(0, c)] + ([Detach(1)] + end), items);
    RunStep([], {}, Append(a), [Append(b)] + ([Replace(0, c)] + ([Detach(1)] + end)), items);
  }

  lemma NoOps(s: seq<Node>, gone: set<Node>, items: set<Node>)
    ensures Run(s, []) == s && Usable(s, gone, [], items) && AllDropped(s, []) == {}
  {
  }

  /** Two items are appended, the first one is replaced and the second one taken out. */
  method SmallRun(lib: Library) returns (parent: Node, b: Node, c: Node)
    modifies lib`live
    ensures fresh({parent, b, c}) && Chain(parent, [c]) && lib.live == old(lib.live) + {parent, b, c}
  {
    hide Supply, AllWF, Stocked, Usable, Run, AllDropped, SmallOps, OwnedBy, PlainTrees, Chain, Below, Strings;
    parent := lib.NewItem();
    var a := lib.NewItem();
    b := lib.NewItem();
    c := lib.NewItem();
    PlainSupply(lib, parent, {a, b, c});
    SmallOpsRun(a, b, c);
    NoChildren(parent);
    PerformAll(lib, parent, SmallOps(a, b, c), [], PlainTrees({a, b, c}));
  }
}
