/**
  cJSON_Parse: the recursive-descent parser, filling nodes while it moves
  through the text. `Grammar` says what it accepts.
 */
module Parser {
  import opened Bytes
  import opened CStrings
  import opened Literals
  import opened Values
  import opened Grammar
  import opened Trees
  import opened Linking
  import opened Deletion

  method SkipBlanks(t: seq<byte>, p: nat) returns (q: nat)
    requires p <= |t|
    ensures q == Skip(t, p)
  {
    q := p;
    while At(t, q) != NUL && At(t, q) <= SPACE
      invariant p <= q <= |t| && Skip(t, q) == Skip(t, p)
      decreases |t| - q
    {
      q := q + 1;
    }
  }

  // ----- Leaves

  /** parse_number, on a number without fraction and exponent: accumulate the digits. */
  method ParseNumber(item: Node, t: seq<byte>, p: nat) returns (num: nat)
    requires p <= |t| && NulFree(t) && ReadNumber(t, p).Parsed?
    modifies item`kind, item`valueint
    ensures num == ReadNumber(t, p).end && item.kind == IsNumber && item.valueint == ReadNumber(t, p).value
  {
    var n, sign := 0, 1;
    num := p;
    if At(t, num) == MINUS {
      sign, num := -1, num + 1;
    }
    if At(t, num) == ZERO {
      num := num + 1;
    }
    ghost var start := num;
    assert start == DigitsStart(t, p);
    if ONE <= At(t, num) <= NINE {
      assert t[start..num] == [];
      while IsDigit(At(t, num))
        invariant start <= num <= |t| && DigitsEnd(t, num) == DigitsEnd(t, start)
        invariant AllDigits(t[start..num])
        invariant n == Magnitude(t[start..num])
        decreases |t| - num
      {
        MagnitudeMore(t, start, num);
        n := n * 10 + (t[num] as int - 48);
        num := num + 1;
      }
    }
    assert num == NumberEnd(t, start);
    item.valueint := sign * n;
    item.kind := IsNumber;
  }

  lemma MagnitudeMore(t: seq<byte>, start: nat, num: nat)
    requires start <= num < |t| && IsDigit(t[num])
    requires AllDigits(t[start..num])
    ensures AllDigits(t[start..num + 1])
    ensures Magnitude(t[start..num + 1]) == Magnitude(t[start..num]) * 10 + (t[num] as int - 48)
  {
    var s := t[start..num + 1];
    assert s == t[start..num] + [t[num]];
    assert s[..|s| - 1] == t[start..num];
  }

  /** A node that is being parsed: it has no value and no children yet. */
  ghost predicate Blank(tr: Tree)
    reads tr.node`kind, tr.node`isReference, tr.node`valueint, tr.node`valuestring, tr.node`name, tr.node`child
    reads Buffers(tr), NodesOf(tr.kids)
  {
    Grows(tr, null) && tr.kids == [] && tr.value == null
  }

  /** The tree consists of the node, its name, and new blocks. */
  twostate predicate Fresh(tr: Tree, new tr': Tree)
  {
    && tr'.node == tr.node && tr'.name == tr.name && tr'.key == tr.key
    && (forall n :: n in Nodes(tr') ==> n == tr.node || fresh(n))
    && (forall a :: a in Buffers(tr') ==> a == tr.name || fresh(a))
  }

  /** parse_string. */
  method ParseString(lib: Library, item: Node, t: seq<byte>, p: nat, ghost tr: Tree) returns (end: int, ghost tr': Tree)
    requires NulFree(t) && p <= |t| && item == tr.node && Blank(tr) && Owned(tr) <= lib.live
    requires !ReadString(t, p).Outside?
    modifies lib, item`kind, item`valuestring
    ensures var r := ReadString(t, p);
            if r.Parsed? then
              end == r.end && lib.ep == old(lib.ep) && tr'.value != null && tr'.text == r.value && tr'.kind == IsString
            else
              end == -1 && lib.ep == r.at && tr' == tr
    ensures Grows(tr', null) && tr'.kids == [] && Fresh(tr, tr') && lib.live == old(lib.live) + Owned(tr')
  {
    hide NodesOf, Nodes, WF, Apart, OwnedOf, Owned, BuffersOf, Buffers, Grows;
    TreeAllocated(tr);
    BlankFacts(tr);
    if At(t, p) != QUOTE {
      lib.ep := p;
      return -1, tr;
    }
    var out;
    out, end := DecodeLiteral(t, p + 1);
    lib.Book(out);
    tr' := SetString(item, out, Text(t, p + 1), tr);
  }

  /** A string that the node is to own. */
  method SetString(item: Node, out: array<byte>, ghost s: seq<byte>, ghost tr: Tree) returns (ghost tr': Tree)
    requires item == tr.node && Blank(tr) && IsCString(out, s) && out != tr.name
    modifies item`kind, item`valuestring
    ensures tr' == tr.(kind := IsString, value := out, text := s) && Grows(tr', null)
    ensures Nodes(tr') == {item} && Buffers(tr') == Buffer(tr.name) + {out}
    ensures Owned(tr') == {item} + Buffer(tr.name) + {out}
  {
    hide Apart;
    TreeAllocated(tr);
    Leaf(tr);
    item.valuestring := out;
    item.kind := IsString;
    tr' := tr.(kind := IsString, value := out, text := s);
    Leaf(tr');
    LeafWF(tr');
    GrowsFromLeaf(tr');
  }

  // ----- What remains to be read of a list of entries

  /** The outcome for a list of which `done` has been read, with the cursor behind it, on no blank. */
  ghost function ItemsRest(t: seq<byte>, done: seq<Json>, q: nat): Outcome<seq<Json>>
    requires q <= |t|
  {
    if At(t, q) == COMMA then
      match ReadItems(t, q + 1)
      case Parsed(rest, end) => Parsed(done + rest, end)
      case Failed(at) => Failed(at)
      case Outside => Outside
    else if At(t, q) == RBRACKET then Parsed(done, q + 1)
    else Failed(q)
  }

  lemma ItemsBegin(t: seq<byte>, p: nat)
    requires p <= |t|
    ensures var v := ReadValue(t, Skip(t, p));
            && (v.Parsed? ==> ReadItems(t, p) == ItemsRest(t, [v.value], Skip(t, v.end)))
            && (v.Failed? ==> ReadItems(t, p) == Failed(v.at))
            && (v.Outside? ==> ReadItems(t, p).Outside?)
  {
    hide ReadValue, Skip;
  }

  /** Without a comma the list ends here. */
  lemma ItemsEnd(t: seq<byte>, done: seq<Json>, q: nat)
    requires q <= |t| && At(t, q) != COMMA
    ensures ItemsRest(t, done, q) == if At(t, q) == RBRACKET then Parsed(done, q + 1) else Failed(q)
  {
  }

  /** Reading one more entry does not change the outcome. */
  lemma {:induction false} ItemsContinue(t: seq<byte>, done: seq<Json>, q: nat)
    requires q <= |t| && At(t, q) == COMMA
    ensures var v := ReadValue(t, Skip(t, q + 1));
            && (v.Parsed? ==> ItemsRest(t, done, q) == ItemsRest(t, done + [v.value], Skip(t, v.end)))
            && (v.Failed? ==> ItemsRest(t, done, q) == Failed(v.at))
            && (v.Outside? ==> ItemsRest(t, done, q).Outside?)
  {
    hide ReadValue, Skip, ReadItems;
    ItemsBegin(t, q + 1);
    var v := ReadValue(t, Skip(t, q + 1));
    if v.Parsed? {
      var e := Skip(t, v.end);
      if At(t, e) == COMMA && ReadItems(t, e + 1).Parsed? {
        assert done + ([v.value] + ReadItems(t, e + 1).value) == done + [v.value] + ReadItems(t, e + 1).value;
      }
    }
  }

  ghost function MembersRest(t: seq<byte>, done: seq<Member>, q: nat): Outcome<seq<Member>>
    requires q <= |t|
  {
    if At(t, q) == COMMA then
      match ReadMembers(t, q + 1)
      case Parsed(rest, end) => Parsed(done + rest, end)
      case Failed(at) => Failed(at)
      case Outside => Outside
    else if At(t, q) == RBRACE then Parsed(done, q + 1)
    else Failed(q)
  }

  lemma MembersEnd(t: seq<byte>, done: seq<Member>, q: nat)
    requires q <= |t| && At(t, q) != COMMA
    ensures MembersRest(t, done, q) == if At(t, q) == RBRACE then Parsed(done, q + 1) else Failed(q)
  {
  }

  lemma MembersBegin(t: seq<byte>, p: nat)
    requires p <= |t|
    ensures var m := ReadMember(t, p);
            && (m.Parsed? ==> ReadMembers(t, p) == MembersRest(t, [m.value], m.end))
            && (m.Failed? ==> ReadMembers(t, p) == Failed(m.at))
            && (m.Outside? ==> ReadMembers(t, p).Outside?)
  {
    hide ReadMember;
  }

  lemma MembersContinue(t: seq<byte>, done: seq<Member>, q: nat)
    requires q <= |t| && At(t, q) == COMMA
    ensures var m := ReadMember(t, q + 1);
            && (m.Parsed? ==> MembersRest(t, done, q) == MembersRest(t, done + [m.value], m.end))
            && (m.Failed? ==> MembersRest(t, done, q) == Failed(m.at))
            && (m.Outside? ==> MembersRest(t, done, q).Outside?)
  {
    hide ReadMember, ReadMembers;
    MembersBegin(t, q + 1);
    var m := ReadMember(t, q + 1);
    if m.Parsed? && At(t, m.end) == COMMA && ReadMembers(t, m.end + 1).Parsed? {
      assert done + ([m.value] + ReadMembers(t, m.end + 1).value) == done + [m.value] + ReadMembers(t, m.end + 1).value;
    }
  }

  // ----- Values

  /** What a parsing method promises: the node has become a tree of new blocks, all booked, and
      the return value and the error pointer are as the grammar says. */
  twostate predicate Reports<T>(lib: Library, r: Outcome<T>, end: int)
    reads lib
  {
    match r
    case Parsed(_, e) => end == e && lib.ep == old(lib.ep)
    case Failed(at) => end == -1 && lib.ep == at
    case Outside => false
  }

  method ParseValue(lib: Library, item: Node, t: seq<byte>, p: nat, ghost tr: Tree) returns (end: int, ghost tr': Tree)
    requires NulFree(t) && p <= |t| && item == tr.node && Blank(tr) && Owned(tr) <= lib.live
    requires !ReadValue(t, p).Outside?
    modifies lib, item`kind, item`valuestring, item`valueint, item`child
    ensures Reports(lib, ReadValue(t, p), end)
    ensures end >= 0 ==> Denote(tr') == ReadValue(t, p).value && Printable(tr')
    ensures Grows(tr', Last(tr'.kids)) && Fresh(tr, tr') && lib.live == old(lib.live) + Owned(tr')
    decreases |t| - p, 2
  {
    hide NodesOf, Nodes, WF, Apart, OwnedOf, Owned, BuffersOf, Buffers, Grows, DenoteItems, DenoteMembers,
      PrintableList, ReadItems, ReadMembers, ReadString, ReadNumber;
    TreeAllocated(tr);
    BlankFacts(tr);
    if Has(t, p, NULL_TEXT) {
      end, tr' := SetKind(lib, item, IsNull, item.valueint, p + 4, tr);
    } else if Has(t, p, FALSE_TEXT) {
      end, tr' := SetKind(lib, item, IsFalse, item.valueint, p + 5, tr);
    } else if Has(t, p, TRUE_TEXT) {
      end, tr' := SetKind(lib, item, IsTrue, 1, p + 4, tr);
    } else if At(t, p) == QUOTE {
      end, tr' := ParseString(lib, item, t, p, tr);
    } else if At(t, p) == MINUS || IsDigit(At(t, p)) {
      end, tr' := SetNumber(item, t, p, tr);
    } else if At(t, p) == LBRACKET {
      end, tr' := ParseArray(lib, item, t, p, tr);
    } else if At(t, p) == LBRACE {
      end, tr' := ParseObject(lib, item, t, p, tr);
    } else {
      end := -1;
      tr' := tr;
      lib.ep := p;
    }
  }

  /** A node without a payload. */
  method SetKind(lib: Library, item: Node, kind: Kind, num: int, next: nat, ghost tr: Tree)
    returns (end: int, ghost tr': Tree)
    requires item == tr.node && Blank(tr) && Owned(tr) <= lib.live
    modifies item`kind, item`valueint
    ensures end == next && tr' == tr.(kind := kind, num := num)
    ensures Grows(tr', null) && Fresh(tr, tr') && Owned(tr') == Owned(tr)
  {
    item.kind, item.valueint := kind, num;
    end, tr' := next, tr.(kind := kind, num := num);
  }

  /** A number. */
  method SetNumber(item: Node, t: seq<byte>, p: nat, ghost tr: Tree) returns (num: nat, ghost tr': Tree)
    requires p <= |t| && NulFree(t) && ReadNumber(t, p).Parsed? && item == tr.node && Blank(tr)
    modifies item`kind, item`valueint
    ensures num == ReadNumber(t, p).end && tr' == tr.(kind := IsNumber, num := ReadNumber(t, p).value)
    ensures Grows(tr', null) && Fresh(tr, tr') && Owned(tr') == Owned(tr)
  {
    num := ParseNumber(item, t, p);
    tr' := tr.(kind := IsNumber, num := item.valueint);
  }

  // ----- Arrays

  /** `child->next=new_item` or `item->child=child`, then parse_value on the new node, then skip. */
  method ParseEntry(lib: Library, item: Node, last: Node?, t: seq<byte>, p: nat, ghost tr: Tree)
    returns (value: int, child: Node, ghost k: Tree, ghost tr': Tree)
    requires NulFree(t) && p <= |t| && item == tr.node && Grows(tr, last) && Owned(tr) <= lib.live
    requires !ReadValue(t, Skip(t, p)).Outside?
    modifies lib, item`child, if last == null then {} else {last}`next
    ensures var r := ReadValue(t, Skip(t, p));
            if r.Parsed? then value == Skip(t, r.end) && lib.ep == old(lib.ep) && Denote(k) == r.value && Printable(k)
            else value == -1 && lib.ep == r.at
    ensures k.node == child && Grows(tr', child) && Added(tr, k, tr') && lib.live == old(lib.live) + Owned(tr')
    ensures Owned(tr) <= Owned(tr')
    decreases |t| - p, 3
  {
    hide NodesOf, Nodes, WF, Apart, OwnedOf, Owned, BuffersOf, Buffers, ReadValue, Skip, Grows, Linked, Blank,
      Printable;
    TreeAllocated(tr);
    NodesAre(tr);
    OwnedWithin(tr);
    ghost var blank;
    child, blank := NewChild(lib, item, last, tr);
    TreeAllocated(blank);
    var q := SkipBlanks(t, p);
    value, k := ParseValue(lib, child, t, q, blank);
    AttachNew(tr, k);
    OwnedWithin(k);
    tr' := tr.(kids := tr.kids + [k]);
    TreeAllocated(tr');
    if value >= 0 {
      value := SkipBlanks(t, value);
    }
  }

  /** `child->next=new_item;new_item->prev=child` or `item->child=child`, with a new node. */
  method NewChild(lib: Library, item: Node, last: Node?, ghost tr: Tree) returns (child: Node, ghost blank: Tree)
    requires item == tr.node && Grows(tr, last)
    modifies lib`live, item`child, if last == null then {} else {last}`next
    ensures fresh(child) && child == blank.node && Linked(tr, child) && Blank(blank) && New(blank)
    ensures blank.name == null && Owned(blank) == {child} && lib.live == old(lib.live) + {child}
  {
    hide NodesOf, Nodes, WF, Apart, OwnedOf, Owned, BuffersOf, Buffers, Grows, Linked, Blank;
    TreeAllocated(tr);
    GrowsFacts(tr, last);
    NodesAre(tr);
    child := lib.NewItem();
    blank := Tree(child, IsFalse, false, 0, null, [], null, [], []);
    BlankNode(blank);
    LinkChild(item, last, child, tr);
  }

  lemma BlankNode(b: Tree)
    requires b.kids == [] && b.value == null && b.name == null && b.text == [] && b.key == [] && !b.isReference
    requires b.node.child == null && b.node.kind == b.kind && !b.node.isReference && b.node.valueint == b.num
    requires b.node.valuestring == null && b.node.name == null
    ensures Blank(b) && Owned(b) == {b.node} && Nodes(b) == {b.node} && NodesOf(b.kids) == {} && Buffers(b) == {}
  {
    assert HasContent(b);
    LeafWF(b);
    GrowsFromLeaf(b);
    Leaf(b);
  }

  /** parse_array. */
  method ParseArray(lib: Library, item: Node, t: seq<byte>, p: nat, ghost tr: Tree) returns (end: int, ghost tr': Tree)
    requires NulFree(t) && p <= |t| && item == tr.node && Blank(tr) && Owned(tr) <= lib.live
    requires At(t, p) == LBRACKET ==> !ReadValue(t, p).Outside?
    modifies lib, item`kind, item`valueint, item`child
    ensures At(t, p) != LBRACKET ==> end == -1 && lib.ep == p && tr' == tr
    ensures At(t, p) == LBRACKET ==> Reports(lib, ReadValue(t, p), end)
    ensures end >= 0 ==> Denote(tr') == ReadValue(t, p).value && Printable(tr')
    ensures Grows(tr', Last(tr'.kids)) && Fresh(tr, tr') && lib.live == old(lib.live) + Owned(tr')
    decreases |t| - p, 1
  {
    hide NodesOf, Nodes, WF, Apart, OwnedOf, Owned, BuffersOf, Buffers, ReadValue, Skip, Grows, Blank, ReadItems,
      Last;
    tr' := tr;
    TreeAllocated(tr);
    BlankFacts(tr);
    if At(t, p) != LBRACKET {
      lib.ep := p;
      return -1, tr;
    }
    ArrayValue(t, p);
    end, tr' := SetKind(lib, item, IsArray, item.valueint, p + 1, tr);
    TreeAllocated(tr');
    end := SkipBlanks(t, end);
    if At(t, end) == RBRACKET {
      return end + 1, tr';
    }
    end, tr' := ParseItems(lib, item, t, end, tr');
  }

  /** The entries of an array: at least one, each but the last with a comma behind it. */
  method ParseItems(lib: Library, item: Node, t: seq<byte>, p: nat, ghost tr: Tree) returns (end: int, ghost tr': Tree)
    requires NulFree(t) && p <= |t| && item == tr.node && Grows(tr, null) && tr.kids == [] && tr.value == null
    requires Owned(tr) <= lib.live
    requires !ReadItems(t, p).Outside?
    modifies lib, item`child
    ensures Reports(lib, ReadItems(t, p), end)
    ensures end >= 0 ==> DenoteItems(tr'.kids) == ReadItems(t, p).value && PrintableList(tr'.kids, false)
    ensures Grows(tr', Last(tr'.kids)) && Fresh(tr, tr') && tr'.kind == tr.kind
            && lib.live == old(lib.live) + Owned(tr')
    decreases |t| - p, 4
  {
    hide NodesOf, Nodes, WF, Apart, OwnedOf, Owned, BuffersOf, Buffers, ReadValue, Skip, Grows, ReadItems, Last,
      ItemsRest, DenoteItems, DenoteMembers, Denote, Printable, PrintableList;
    tr' := tr;
    Leaf(tr);
    ItemsBegin(t, p);
    var value, child;
    ghost var k;
    value, child, k, tr' := ParseEntry(lib, item, null, t, p, tr);
    SingleDenotes(k);
    assert [] + [k] == [k];
    assert tr'.kids == [k];
    if value < 0 {
      GrowsLast(tr', child);
      return -1, tr';
    }
    while At(t, value) == COMMA
      invariant p < value <= |t| && lib.ep == old(lib.ep)
      invariant ReadItems(t, p) == ItemsRest(t, DenoteItems(tr'.kids), value) && PrintableList(tr'.kids, false)
      invariant Grows(tr', child) && fresh(child) && Fresh(tr, tr') && tr'.kind == tr.kind
      invariant lib.live == old(lib.live) + Owned(tr')
      decreases |t| - value
    {
      ItemsContinue(t, DenoteItems(tr'.kids), value);
      ghost var was := tr';
      value, child, k, tr' := ParseEntry(lib, item, child, t, value + 1, tr');
      AppendDenote(was.kids, k);
      AppendPrintable(was.kids, k, false);
      if value < 0 {
        GrowsLast(tr', child);
        return -1, tr';
      }
    }
    GrowsLast(tr', child);
    ItemsEnd(t, DenoteItems(tr'.kids), value);
    if At(t, value) == RBRACKET {
      return value + 1, tr';
    }
    TreeAllocated(tr');
    lib.ep := value;
    return -1, tr';
  }

  lemma SingleDenotes(k: Tree)
    ensures DenoteItems([k]) == [Denote(k)] && DenoteMembers([k]) == [Member(k.key, Denote(k))]
    ensures PrintableList([k], false) <==> Printable(k)
    ensures PrintableList([k], true) <==> Printable(k) && k.name != null
  {
    AppendDenote([], k);
    AppendPrintable([], k, false);
    AppendPrintable([], k, true);
    assert [] + [k] == [k];
  }

  lemma BlankFacts(tr: Tree)
    requires Blank(tr)
    ensures Grows(tr, null) && tr.kids == [] && Last(tr.kids) == null && tr.value == null
    ensures Nodes(tr) == {tr.node} && Buffers(tr) == Buffer(tr.name) && Owned(tr) == {tr.node} + Buffer(tr.name)
  {
  }

  // ----- Objects

  /** The string of a new child becomes its name. */
  method NameChild(child: Node, ghost k: Tree) returns (ghost named: Tree)
    requires child == k.node && Grows(k, null) && k.kids == [] && k.name == null
    modifies child`valuestring, child`name
    ensures named == k.(name := k.value, key := k.text, value := null, text := []) && Blank(named)
    ensures Owned(named) == Owned(k) && Buffers(named) == Buffers(k)
  {
    hide Apart;
    TreeAllocated(k);
    Leaf(k);
    child.name := child.valuestring;
    child.valuestring := null;
    named := k.(name := k.value, key := k.text, value := null, text := []);
    Leaf(named);
    LeafWF(named);
    GrowsFromLeaf(named);
  }

  /** The key of a new child: read as its value, then moved over to its name. Up to the colon. */
  method ParseKey(lib: Library, child: Node, t: seq<byte>, p: nat, ghost blank: Tree)
    returns (value: int, ghost k: Tree)
    requires NulFree(t) && p <= |t| && child == blank.node && Blank(blank) && blank.name == null
             && Owned(blank) <= lib.live
    requires !ReadString(t, Skip(t, p)).Outside?
    modifies lib, child`kind, child`valuestring, child`name
    ensures match ReadString(t, Skip(t, p))
            case Failed(at) => value == -1 && lib.ep == at
            case Parsed(key, e) =>
              var q := Skip(t, e);
              if At(t, q) == COLON then value == q && lib.ep == old(lib.ep) && k.key == key && k.name != null
              else value == -1 && lib.ep == q
            case Outside => false
    ensures k.node == child && Blank(k) && (forall a :: a in Buffers(k) ==> fresh(a))
    ensures lib.live == old(lib.live) + Owned(k)
  {
    hide NodesOf, WFList, Apart, OwnedOf, BuffersOf, ReadString, Skip, Siblings;
    TreeAllocated(blank);
    BlankFacts(blank);
    var q := SkipBlanks(t, p);
    value, k := ParseString(lib, child, t, q, blank);
    Leaf(k);
    if value < 0 {
      return;
    }
    TreeAllocated(k);
    value := SkipBlanks(t, value);
    k := NameChild(child, k);
    if At(t, value) != COLON {
      TreeAllocated(k);
      lib.ep := value;
      value := -1;
    }
  }

  /** A new child with its key. */
  method NewMember(lib: Library, item: Node, last: Node?, t: seq<byte>, p: nat, ghost tr: Tree)
    returns (value: int, child: Node, ghost k: Tree)
    requires NulFree(t) && p <= |t| && item == tr.node && Grows(tr, last) && Owned(tr) <= lib.live
    requires !ReadString(t, Skip(t, p)).Outside?
    modifies lib, item`child, if last == null then {} else {last}`next
    ensures match ReadString(t, Skip(t, p))
            case Failed(at) => value == -1 && lib.ep == at
            case Parsed(key, e) =>
              var q := Skip(t, e);
              if At(t, q) == COLON then value == q && lib.ep == old(lib.ep) && k.key == key && k.name != null
              else value == -1 && lib.ep == q
            case Outside => false
    ensures child == k.node && Linked(tr, child) && Blank(k) && New(k) && lib.live == old(lib.live) + Owned(k)
  {
    hide NodesOf, Nodes, WF, Apart, OwnedOf, Owned, BuffersOf, Buffers, ReadString, Skip, Grows, Linked, Blank, Last;
    TreeAllocated(tr);
    NodesAre(tr);
    ghost var blank;
    child, blank := NewChild(lib, item, last, tr);
    TreeAllocated(blank);
    value, k := ParseKey(lib, child, t, p, blank);
    OwnedWithin(k);
    BlankFacts(k);
  }

  /** One entry of an object: a new child, its key, a colon, and its value. */
  method ParseMember(lib: Library, item: Node, last: Node?, t: seq<byte>, p: nat, ghost tr: Tree)
    returns (value: int, child: Node, ghost k: Tree, ghost tr': Tree)
    requires NulFree(t) && p <= |t| && item == tr.node && Grows(tr, last) && Owned(tr) <= lib.live
    requires !ReadMember(t, p).Outside?
    modifies lib, item`child, if last == null then {} else {last}`next
    ensures var r := ReadMember(t, p);
            if r.Parsed? then
              && value == r.end && lib.ep == old(lib.ep)
              && Member(k.key, Denote(k)) == r.value && Printable(k) && k.name != null
            else value == -1 && lib.ep == r.at
    ensures k.node == child && Grows(tr', child) && Added(tr, k, tr') && lib.live == old(lib.live) + Owned(tr')
    ensures Owned(tr) <= Owned(tr')
    decreases |t| - p, 3
  {
    hide NodesOf, Nodes, WF, Apart, OwnedOf, Owned, BuffersOf, Buffers, ReadValue, ReadString, Skip, Grows, Linked,
      Blank, Denote, Last, Printable;
    TreeAllocated(tr);
    NodesAre(tr);
    OwnedWithin(tr);
    value, child, k := NewMember(lib, item, last, t, p, tr);
    OwnedWithin(k);
    BlankFacts(k);
    if value >= 0 {
      TreeAllocated(k);
      value := SkipBlanks(t, value + 1);
      value, k := ParseValue(lib, child, t, value, k);
      OwnedWithin(k);
    }
    AttachNew(tr, k);
    tr' := tr.(kids := tr.kids + [k]);
    TreeAllocated(tr');
    if value >= 0 {
      value := SkipBlanks(t, value);
    }
  }

  /** parse_object. */
  method ParseObject(lib: Library, item: Node, t: seq<byte>, p: nat, ghost tr: Tree) returns (end: int, ghost tr': Tree)
    requires NulFree(t) && p <= |t| && item == tr.node && Blank(tr) && Owned(tr) <= lib.live
    requires At(t, p) == LBRACE ==> !ReadValue(t, p).Outside?
    modifies lib, item`kind, item`valueint, item`child
    ensures At(t, p) != LBRACE ==> end == -1 && lib.ep == p && tr' == tr
    ensures At(t, p) == LBRACE ==> Reports(lib, ReadValue(t, p), end)
    ensures end >= 0 ==> Denote(tr') == ReadValue(t, p).value && Printable(tr')
    ensures Grows(tr', Last(tr'.kids)) && Fresh(tr, tr') && lib.live == old(lib.live) + Owned(tr')
    decreases |t| - p, 1
  {
    hide NodesOf, Nodes, WF, Apart, OwnedOf, Owned, BuffersOf, Buffers, ReadValue, Skip, Grows, Blank, ReadMembers,
      Last;
    tr' := tr;
    TreeAllocated(tr);
    BlankFacts(tr);
    if At(t, p) != LBRACE {
      lib.ep := p;
      return -1, tr;
    }
    ObjectValue(t, p);
    end, tr' := SetKind(lib, item, IsObject, item.valueint, p + 1, tr);
    TreeAllocated(tr');
    end := SkipBlanks(t, end);
    if At(t, end) == RBRACE {
      return end + 1, tr';
    }
    end, tr' := ParseMembers(lib, item, t, end, tr');
  }

  /** The entries of an object: at least one, each but the last with a comma behind it. */
  method ParseMembers(lib: Library, item: Node, t: seq<byte>, p: nat, ghost tr: Tree)
    returns (end: int, ghost tr': Tree)
    requires NulFree(t) && p <= |t| && item == tr.node && Grows(tr, null) && tr.kids == [] && tr.value == null
    requires Owned(tr) <= lib.live
    requires !ReadMembers(t, p).Outside?
    modifies lib, item`child
    ensures Reports(lib, ReadMembers(t, p), end)
    ensures end >= 0 ==> DenoteMembers(tr'.kids) == ReadMembers(t, p).value && PrintableList(tr'.kids, true)
    ensures Grows(tr', Last(tr'.kids)) && Fresh(tr, tr') && tr'.kind == tr.kind
            && lib.live == old(lib.live) + Owned(tr')
    decreases |t| - p, 4
  {
    hide NodesOf, Nodes, WF, Apart, OwnedOf, Owned, BuffersOf, Buffers, ReadMember, Skip, Grows, ReadMembers, Last,
      MembersRest, DenoteItems, DenoteMembers, Denote, Printable, PrintableList;
    tr' := tr;
    Leaf(tr);
    MembersBegin(t, p);
    var value, child;
    ghost var k;
    value, child, k, tr' := ParseMember(lib, item, null, t, p, tr);
    SingleDenotes(k);
    assert [] + [k] == [k];
    assert tr'.kids == [k];
    if value < 0 {
      GrowsLast(tr', child);
      return -1, tr';
    }
    while At(t, value) == COMMA
      invariant p < value <= |t| && lib.ep == old(lib.ep)
      invariant ReadMembers(t, p) == MembersRest(t, DenoteMembers(tr'.kids), value) && PrintableList(tr'.kids, true)
      invariant Grows(tr', child) && fresh(child) && Fresh(tr, tr') && tr'.kind == tr.kind
      invariant lib.live == old(lib.live) + Owned(tr')
      decreases |t| - value
    {
      MembersContinue(t, DenoteMembers(tr'.kids), value);
      ghost var was := tr';
      value, child, k, tr' := ParseMember(lib, item, child, t, value + 1, tr');
      AppendDenote(was.kids, k);
      AppendPrintable(was.kids, k, true);
      if value < 0 {
        GrowsLast(tr', child);
        return -1, tr';
      }
    }
    GrowsLast(tr', child);
    MembersEnd(t, DenoteMembers(tr'.kids), value);
    if At(t, value) == RBRACE {
      return value + 1, tr';
    }
    TreeAllocated(tr');
    lib.ep := value;
    return -1, tr';
  }

  // ----- Whole texts

  /** cJSON_ParseWithOpts. A parsed text is a tree of new blocks that stands for the value read; after a failure
      no block is left behind, and the error pointer says where it happened. */
  method ParseWithOpts(lib: Library, t: seq<byte>, requireNullTerminated: bool)
    returns (c: Node?, end: int, ghost tr: Tree)
    requires NulFree(t) && !ReadText(t, requireNullTerminated).Outside?
    modifies lib
    ensures match ReadText(t, requireNullTerminated)
            case Parsed(v, e) =>
              && c != null && c == tr.node && c.next == null && c.prev == null
              && end == e && lib.ep == -1 && Denote(tr) == v
              && WF(tr) && Apart(tr) && New(tr) && Printable(tr) && lib.live == old(lib.live) + Owned(tr)
            case Failed(at) => c == null && lib.ep == at && lib.live == old(lib.live)
            case Outside => false
  {
    hide NodesOf, Nodes, WF, Apart, OwnedOf, Owned, BuffersOf, Buffers, ReadValue, Skip, Grows, Blank, Denote,
      Printable;
    var item := lib.NewItem();
    lib.ep := -1;
    tr := Tree(item, IsFalse, false, 0, null, [], null, [], []);
    BlankNode(tr);
    TreeAllocated(tr);
    end := SkipBlanks(t, 0);
    end, tr := ParseValue(lib, item, t, end, tr);
    GrowsFacts(tr, Last(tr.kids));
    OwnedWithin(tr);
    TreeAllocated(tr);
    if end < 0 {
      DeleteItem(lib, item, tr);
      return null, end, tr;
    }
    if requireNullTerminated {
      end := SkipBlanks(t, end);
      if At(t, end) != NUL {
        DeleteItem(lib, item, tr);
        lib.ep := end;
        return null, end, tr;
      }
    }
    c := item;
  }
}
