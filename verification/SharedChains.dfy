/**
  Chains with two holders, as create_reference makes them: exactly when operations through one of them leave the
  other one with the right children, and what it is left with otherwise.
 */
module SharedChains {
  import opened Sequences
  import opened Trees
  import opened Linking
  import opened Duplication
  import opened ListOps
  import opened ListRuns

  // ----- When the head stays the head

  /** The operation takes no branch that assigns to `child`. */
  predicate SparesHead<T>(n: nat, op: Op<T>) {
    if op.Append? then n != 0 else n == 0 || Index(op.which) != 0
  }

  lemma StepSparesHead(s: seq<Node>, op: Op<Node>)
    requires Distinct(s) && (op.Detach? || op.item !in s)
    ensures Head(Apply(s, op)) == Head(s) <==> SparesHead(|s|, op)
  {
    assert |s| >= 2 ==> s[0] != s[1];
  }

  /** The length after an operation. */
  function Length<T>(n: nat, op: Op<T>): nat {
    match op
    case Append(_) => n + 1
    case Detach(which) => if Index(which) < n then n - 1 else n
    case Replace(_, _) => n
  }

  /** Where `h` is after an operation on a chain of `n` items that has it at `at`, or not if that is -1. */
  function Place<T(==)>(h: T, n: nat, at: int, op: Op<T>): int {
    match op
    case Append(item) => if item == h then n else at
    case Detach(which) => if Index(which) == at then -1 else if Index(which) < at then at - 1 else at
    case Replace(which, item) =>
      if Index(which) < n && item == h then Index(which) else if Index(which) == at then -1 else at
  }

  function LastLength<T>(n: nat, ops: seq<Op<T>>): nat
    decreases |ops|
  {
    if ops == [] then n else LastLength(Length(n, ops[0]), ops[1..])
  }

  function LastPlace<T(==)>(h: T, n: nat, at: int, ops: seq<Op<T>>): int
    decreases |ops|
  {
    if ops == [] then at else LastPlace(h, Length(n, ops[0]), Place(h, n, at, ops[0]), ops[1..])
  }

  /** The old head comes to stand in front again, or an empty chain is empty again. Only lengths and positions are
      followed, and where the old head is put in. */
  predicate HeadReturns<T(==)>(s: seq<T>, ops: seq<Op<T>>) {
    if s == [] then LastLength(0, ops) == 0 else LastPlace(s[0], |s|, 0, ops) == 0
  }

  predicate IsAt<T(==)>(s: seq<T>, h: T, at: int) {
    if at == -1 then h !in s else 0 <= at < |s| && s[at] == h
  }

  lemma StepPlaces<T>(s: seq<T>, h: T, at: int, op: Op<T>)
    requires Distinct(s) && IsAt(s, h, at) && (op.Detach? || op.item !in s)
    ensures |Apply(s, op)| == Length(|s|, op) && IsAt(Apply(s, op), h, Place(h, |s|, at, op))
  {
  }

  lemma {:induction false} RunPlaces<T>(s: seq<T>, h: T, at: int, ops: seq<Op<T>>)
    requires Distinct(s) && Legal(s, ops) && IsAt(s, h, at)
    ensures |Run(s, ops)| == LastLength(|s|, ops) && IsAt(Run(s, ops), h, LastPlace(h, |s|, at, ops))
    decreases |ops|
  {
    hide Apply, IsAt, Place, Length, Distinct;
    if ops != [] {
      StepPlaces(s, h, at, ops[0]);
      StepDistinct(s, ops[0]);
      RunPlaces(Apply(s, ops[0]), h, Place(h, |s|, at, ops[0]), ops[1..]);
    }
  }

  lemma {:induction false} RunLengths<T>(s: seq<T>, ops: seq<Op<T>>)
    ensures |Run(s, ops)| == LastLength(|s|, ops)
    decreases |ops|
  {
    if ops != [] {
      RunLengths(Apply(s, ops[0]), ops[1..]);
    }
  }

  /** Over any run. */
  lemma RunSparesHead(s: seq<Node>, ops: seq<Op<Node>>)
    requires Distinct(s) && Legal(s, ops)
    ensures Head(Run(s, ops)) == Head(s) <==> HeadReturns(s, ops)
  {
    RunLengths(s, ops);
    if s != [] {
      RunPlaces(s, s[0], 0, ops);
      RunConserves(s, ops);
    }
  }

  /** A run no step of which changes the head is enough for that. */
  predicate AlwaysSparesHead<T>(n: nat, ops: seq<Op<T>>)
    decreases |ops|
  {
    ops == [] || (SparesHead(n, ops[0]) && AlwaysSparesHead(Length(n, ops[0]), ops[1..]))
  }

  lemma {:induction false} SparedHeadReturns(s: seq<Node>, ops: seq<Op<Node>>)
    requires Distinct(s) && Legal(s, ops) && AlwaysSparesHead(|s|, ops)
    ensures HeadReturns(s, ops) && Head(Run(s, ops)) == Head(s)
    decreases |ops|
  {
    hide Distinct, Apply, Length, HeadReturns;
    RunSparesHead(s, ops);
    if ops != [] {
      StepSparesHead(s, ops[0]);
      StepDistinct(s, ops[0]);
      RunLengths(s, ops[..1]);
      assert ops[..1][0] == ops[0] && Run(s, ops[..1]) == Apply(s, ops[0]);
      SparedHeadReturns(Apply(s, ops[0]), ops[1..]);
    }
  }

  /** It is not necessary: a head that is taken out can come back. */
  lemma HeadComesBack(a: Node, b: Node)
    requires a != b
    ensures var ops := [Detach(0), Append(a), Detach(0)];
            Legal([a, b], ops) && Run([a, b], ops) == [a] && HeadReturns([a, b], ops) && !AlwaysSparesHead(2, ops)
  {
    var out: Op<Node>, back := Detach(0), Append(a);
    assert Apply([a, b], out) == [b] && Apply([b], back) == [b, a] && Apply([b, a], out) == [a];
    assert [out, back, out][1..] == [back, out] && [back, out][1..] == [out] && [out][1..] == [];
    assert Run([b, a], [out]) == Run([a], []) == [a];
    assert Run([b], [back, out]) == Run([b, a], [out]);
    assert Legal([b, a], [out]) && Legal([b], [back, out]);
    assert LastPlace(a, 2, 1, [out]) == 0 && LastPlace(a, 1, -1, [back, out]) == 0;
  }

  // ----- What the other holder has

  lemma {:induction false} UsableIsLegal(s: seq<Node>, gone: set<Node>, ops: seq<Op<Node>>, items: set<Node>)
    requires Usable(s, gone, ops, items)
    ensures Legal(s, ops)
    decreases |ops|
  {
    if ops != [] {
      UsableIsLegal(Apply(s, ops[0]), gone + Dropped(s, ops[0]), ops[1..], items);
    }
  }

  lemma OtherChain(parent: Node, other: Node, r: seq<Node>)
    requires Chain(parent, r) && other !in r
    ensures Chain(other, r) <==> other.child == Head(r)
  {
  }

  lemma NotWF(t: Tree, r: seq<Node>)
    requires Roots(t.kids) == r && t.node.child != Head(r)
    ensures !WF(t)
  {
  }

  /** The old head is live as long as no operation has replaced it. */
  lemma HeadLives(lib: Library, trees: map<Node, Tree>, parent: Node, h: Node, s: seq<Node>, gone: set<Node>)
    requires Supply(trees, parent) && Stocked(lib, trees, s, gone) && h in trees
    requires lib.live !! OwnedBy(trees, gone)
    ensures h in lib.live <==> h !in gone
  {
    OwnedWithin(trees[h]);
  }

  /** A run through one holder. The other one has the right children afterwards, and is a well-formed tree with them,
      if and only if the old head is in front again. Its `child` is a block that is still live, if and only if the
      run has not replaced the old head. */
  method PerformShared(lib: Library, parent: Node, other: Node, ops: seq<Op<Node>>, ghost s: seq<Node>,
        ghost trees: map<Node, Tree>, ghost t: Tree, ghost o: Tree)
    requires Supply(trees, parent) && AllWF(trees) && Chain(parent, s) && Stocked(lib, trees, s, {})
    requires Usable(s, {}, ops, trees.Keys) && t.node == parent && HasContent(t)
    requires other != parent && other !in trees && Chain(other, s) && o.node == other && HasContent(o)
    modifies lib`live, parent`child, trees.Keys`next, trees.Keys`prev
    ensures Chain(parent, Run(s, ops)) && forall n :: n in Run(s, ops) ==> n in trees
    ensures Chain(other, Run(s, ops)) <==> HeadReturns(s, ops)
    ensures WF(o.(kids := Kids(trees, Run(s, ops)))) <==> HeadReturns(s, ops)
    ensures HeadReturns(s, ops) ==> HasKids(trees, Run(s, ops), o, o.(kids := Kids(trees, Run(s, ops))))
    ensures s != [] ==> (other.child in lib.live <==> s[0] !in AllDropped(s, ops))
  {
    hide Supply, AllWF, Usable, HasContent, Run, Stocked, OwnedBy, HeadReturns, WF;
    ghost var r := Run(s, ops);
    InStock(lib, trees, parent, s, {});
    ChainDistinct(parent, s);
    UsableIsLegal(s, {}, ops, trees.Keys);
    RunSparesHead(s, ops);
    PerformAll(lib, parent, ops, s, trees);
    InStock(lib, trees, parent, r, AllDropped(s, ops));
    OtherChain(parent, other, r);
    ghost var o' := o.(kids := Kids(trees, r));
    KidsWF(trees, r);
    if HeadReturns(s, ops) {
      WithKids(lib, parent, trees, r, AllDropped(s, ops), o);
    } else {
      NotWF(o', r);
    }
    if s != [] {
      HeadLives(lib, trees, parent, s[0], r, AllDropped(s, ops));
    }
  }

  // ----- Runs that fail the other holder

  lemma ChainOf(t: Tree)
    requires WF(t) && t.node !in Roots(t.kids)
    ensures Chain(t.node, Roots(t.kids))
  {
  }

  lemma {:induction false} RootsAreHeads(s: seq<Tree>)
    ensures forall n :: n in Roots(s) ==> n in Heads(s) && n in NodesOf(s)
  {
    hide Heads, NodesOf;
    forall n | n in Roots(s) ensures n in Heads(s) && n in NodesOf(s) {
      var i :| 0 <= i < |s| && Roots(s)[i] == n;
    }
  }

  /** The first child is a tree of its own, and nothing below it is a child. */
  lemma FirstChild(t: Tree)
    requires Grows(t, Last(t.kids)) && t.kids != []
    ensures WF(t) && t.node !in NodesOf(t.kids) && forall n :: n in Roots(t.kids) ==> n in NodesOf(t.kids)
    ensures Apart(t.kids[0]) && t.kids[0].node in Owned(t.kids[0]) && Owned(t.kids[0]) <= Owned(t)
    ensures forall n :: n in NodesOf(t.kids[0].kids) ==> n in NodesOf(t.kids) && n !in Roots(t.kids)
  {
    hide WF, Buffers, BuffersOf, Heads;
    RootsAreHeads(t.kids);
    FirstIsInner(t.kids);
    assert Apart(t) && ApartList(t.kids) && Owned(t) >= OwnedOf(t.kids);
    FirstIsApart(t.kids);
  }

  lemma FirstIsApart(s: seq<Tree>)
    requires ApartList(s) && s != []
    ensures Apart(s[0]) && s[0].node in Owned(s[0]) && Owned(s[0]) <= OwnedOf(s)
  {
  }

  lemma FirstIsInner(s: seq<Tree>)
    requires s != []
    ensures NodesOf(s[0].kids) <= Inner(s) <= NodesOf(s)
  {
    hide NodesOf;
  }

  /** A reference to a tree with children, ready for an operation on the first of them. */
  method Share(lib: Library, item: Node, ghost t: Tree) returns (ref: Node)
    requires item == t.node && Grows(t, Last(t.kids)) && t.kids != []
    modifies lib`live
    ensures fresh(ref) && ref !in NodesOf(t.kids) && lib.live == old(lib.live) + {ref}
    ensures Chain(ref, Roots(t.kids)) && Chain(item, Roots(t.kids)) && item !in Roots(t.kids)
    ensures WF(t.kids[0]) && Apart(t.kids[0]) && t.kids[0].node in Owned(t.kids[0]) && Owned(t.kids[0]) <= Owned(t)
    ensures forall n :: n in NodesOf(t.kids[0].kids) ==> n in NodesOf(t.kids) && n !in Roots(t.kids)
    ensures forall n :: n in Roots(t.kids) ==> n in NodesOf(t.kids)
  {
    hide NodesOf, WFList, OwnedOf, BuffersOf, Siblings, Holds, WF, Apart, Owned, Grows, Nodes, Buffers, Chain;
    FirstChild(t);
    TreeAllocated(t);
    ghost var r;
    ref, r := CreateReference(lib, item, t);
    Kid(t, 0);
    ChainOf(t);
    ChainOf(r);
  }

  /** Detaching the first child through a reference: the reference has the rest, and the original is left with the
      detached child alone. */
  method DetachThroughReference(lib: Library, item: Node, ghost t: Tree) returns (ref: Node, c: Node?)
    requires item == t.node && Grows(t, Last(t.kids)) && t.kids != []
    modifies lib`live, Roots(t.kids)`next, Roots(t.kids)`prev
    ensures fresh(ref) && c == t.kids[0].node && Chain(ref, Roots(t.kids)[1..]) && Chain(item, [c])
  {
    hide NodesOf, WFList, OwnedOf, BuffersOf, Holds, WF, Apart, Owned, Grows, Nodes, Buffers;
    TreeAllocated(t);
    ref := Share(lib, item, t);
    c := DetachItemFromArray(ref, 0, Roots(t.kids));
    assert Without(Roots(t.kids), 0) == Roots(t.kids)[1..];
    Alone(item, c);
  }

  lemma Alone(parent: Node, c: Node)
    requires parent.child == c && c.next == null && c.prev == null && parent != c
    ensures Chain(parent, [c])
  {
  }

  /** Replacing the first child through a reference: the original keeps a pointer to a node that has been freed. */
  method ReplaceThroughReference(lib: Library, item: Node, newitem: Node, ghost t: Tree) returns (ref: Node)
    requires item == t.node && Grows(t, Last(t.kids)) && t.kids != [] && Owned(t) <= lib.live
    requires newitem !in Nodes(t)
    modifies lib`live, Roots(t.kids)`next, Roots(t.kids)`prev, newitem`next, newitem`prev
    ensures fresh(ref) && Chain(ref, Roots(t.kids)[0 := newitem])
    ensures item.child == t.kids[0].node && item.child !in lib.live
  {
    hide NodesOf, WFList, OwnedOf, BuffersOf, Siblings, Holds, WF, Apart, Owned, Grows, Nodes, Buffers;
    NodesAre(t);
    TreeAllocated(t);
    ref := Share(lib, item, t);
    ReplaceItemInArray(lib, ref, 0, newitem, Roots(t.kids), t.kids[0]);
  }
}
