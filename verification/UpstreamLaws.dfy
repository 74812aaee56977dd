/**
  What deleting, adding and editing servers do to one group.
 */
module UpstreamLaws {
  import opened Bytes
  import opened Upstreams

  // ----- Lists

  lemma {:induction false} WeightsOfSum(s: seq<Server>, t: seq<Server>)
    ensures Weights(s + t) == Weights(s) + Weights(t)
  {
    if s == [] {
      assert s + t == t;
    } else {
      assert (s + t)[1..] == s[1..] + t;
      WeightsOfSum(s[1..], t);
    }
  }

  lemma {:induction false} KeepOfSum(s: seq<Server>, t: seq<Server>, f: Filter)
    ensures Keep(s + t, f) == Keep(s, f) + Keep(t, f)
    ensures Matching(s + t, f) == Matching(s, f) + Matching(t, f)
  {
    if s == [] {
      assert s + t == t;
    } else {
      assert (s + t)[1..] == s[1..] + t;
      KeepOfSum(s[1..], t, f);
    }
  }

  lemma {:induction false} KeepFacts(s: seq<Server>, f: Filter)
    ensures Matching(Keep(s, f), f) == 0 && Keep(Keep(s, f), f) == Keep(s, f)
    ensures |Keep(s, f)| == |s| - Matching(s, f)
    ensures Matching(s, f) == 0 <==> Keep(s, f) == s
    ensures Positive(s) ==> Positive(Keep(s, f))
  {
    if s != [] {
      KeepFacts(s[1..], f);
      if !Matches(s[0], f) {
        assert Keep(s, f)[1..] == Keep(s[1..], f);
      }
    }
  }

  lemma {:induction false} AllMatch(s: seq<Server>, f: Filter)
    requires forall i :: 0 <= i < |s| ==> Matches(s[i], f)
    ensures Keep(s, f) == [] && Matching(s, f) == |s|
  {
    if s != [] {
      AllMatch(s[1..], f);
    }
  }

  // ----- Deleting

  /** The exact outcome of the delete loop on a list of any length. Servers that do not match survive in
      their order, at most one that matches does, and it does just when the first two match. */
  lemma {:induction false} DeleteOutcome(s: seq<Server>, f: Filter)
    requires !LeftOne(s, f)
    ensures var r := Survivors(s, f);
            && (s != [] ==> r != []) && |r| <= |s|
            && Keep(r, f) == Keep(s, f)
            && Matching(r, f) == (if |s| >= 2 && Matches(s[0], f) && Matches(s[1], f) then 1 else 0)
            && (Matching(r, f) == 1 ==> r[0] == s[1])
            && (Positive(s) ==> Positive(r))
  {
    hide Keep, Matching, Positive;
    if s == [] {
      KeepFacts(s, f);
    } else if Matches(s[0], f) {
      HeadAndKept(s[1], s[2..], f);
      HeadMatches(s, f);
      assert s[1..] == [s[1]] + s[2..];
    } else {
      HeadAndKept(s[0], s[1..], f);
      assert s == [s[0]] + s[1..];
    }
  }

  lemma HeadMatches(s: seq<Server>, f: Filter)
    requires s != [] && Matches(s[0], f)
    ensures Keep(s, f) == Keep(s[1..], f) && Matching(s, f) == 1 + Matching(s[1..], f)
    ensures Positive(s) ==> Positive(s[1..])
  {
  }

  lemma HeadAndKept(head: Server, rest: seq<Server>, f: Filter)
    ensures var r := [head] + Keep(rest, f);
            && Keep(r, f) == Keep([head] + rest, f) && |r| <= 1 + |rest|
            && Matching(r, f) == (if Matches(head, f) then 1 else 0)
            && (Positive([head] + rest) ==> Positive(r))
  {
    assert Positive([head] + rest) ==> Positive(rest) && ([head] + rest)[0].weight >= 1 by {
      assert ([head] + rest)[1..] == rest;
    }
    KeepFacts(rest, f);
    KeepOfSum([head], Keep(rest, f), f);
    KeepOfSum([head], rest, f);
  }

  /** One delete request on a list: unchanged when it would lose its last server. */
  function Deleted(s: seq<Server>, f: Filter): seq<Server> {
    if LeftOne(s, f) then s else Survivors(s, f)
  }

  lemma DeletedIsSettled(s: seq<Server>, f: Filter)
    ensures Deleted(s, f) == s <==> Matching(s, f) == 0 || LeftOne(s, f)
  {
    if !LeftOne(s, f) {
      DeleteOutcome(s, f);
      KeepFacts(s, f);
      if Matching(s, f) == 0 && s != [] {
        assert !Matches(s[0], f);
        assert s == [s[0]] + s[1..];
        KeepFacts(s[1..], f);
      }
      if |s| >= 2 && Matches(s[0], f) && Matches(s[1], f) {
        assert s[1..][0] == s[1];
        assert Matching(s, f) >= 2;
      }
    }
  }

  /** Two identical deletes reach a fixed point: no match is left, or only one server is left and it matches. */
  lemma TwoDeletesSettle(s: seq<Server>, f: Filter)
    ensures var r := Deleted(Deleted(s, f), f);
            Deleted(r, f) == r && (Matching(r, f) == 0 || LeftOne(r, f))
  {
    if LeftOne(s, f) {
      return;
    }
    DeleteOutcome(s, f);
    var r1 := Survivors(s, f);
    DeletedIsSettled(r1, f);
    if Deleted(r1, f) != r1 {
      DeleteOutcome(r1, f);
      assert r1 == [r1[0]] + r1[1..];
      KeepOfSum([r1[0]], r1[1..], f);
      var r2 := Survivors(r1, f);
      assert Matching(r2, f) == 0;
      DeletedIsSettled(r2, f);
    }
  }

  /** One is not enough exactly when the first two match and more follow them. */
  lemma OneDeleteSettles(s: seq<Server>, f: Filter)
    ensures Deleted(Deleted(s, f), f) == Deleted(s, f)
            <==> !(|s| >= 2 && Matches(s[0], f) && Matches(s[1], f) && Keep(s[2..], f) != [])
  {
    if LeftOne(s, f) {
      return;
    }
    DeleteOutcome(s, f);
    DeletedIsSettled(Survivors(s, f), f);
    if |s| >= 2 && Matches(s[0], f) && Matches(s[1], f) {
      assert Survivors(s, f) == [s[1]] + Keep(s[2..], f);
    }
  }

  /** The shortest list on which one delete leaves a match, and a second one does not. */
  lemma OneDeleteLeavesAMatch(m: Server, x: Server, f: Filter)
    requires Matches(m, f) && !Matches(x, f)
    ensures Deleted([m, m, x], f) == [m, x] && Matching([m, x], f) == 1 && Deleted([m, x], f) == [x]
  {
    assert [m, m, x][2..] == [x] && [x][1..] == [] && [m, x][1..] == [x] && [m, x][2..] == [];
    assert Keep([x], f) == [x] && Matching([x], f) == 0;
  }

  /** Matching servers in front of a list without a match: one delete takes all of them but the second. */
  lemma AddThenDelete(added: seq<Server>, s: seq<Server>, f: Filter)
    requires s != [] && Matching(s, f) == 0 && forall i :: 0 <= i < |added| ==> Matches(added[i], f)
    ensures Deleted(added + s, f) == if |added| <= 1 then s else [added[1]] + s
    ensures !LeftOne(added + s, f) && !LeftOne(Deleted(added + s, f), f)
  {
    hide Keep, Matching, Matches;
    var all := added + s;
    NoneInTail(s, f);
    if added == [] {
      assert all == s;
    } else if |added| == 1 {
      assert all[2..] == s[1..] && all[1] == s[0];
    } else {
      assert all[2..] == added[2..] + s && all[1] == added[1];
      KeepOfSum(added[2..], s, f);
      AllMatch(added[2..], f);
      KeepFacts(s, f);
    }
  }

  /** Any number of new servers in front of a list without a match, then two deletes that match exactly the
      new ones: the list is what it was, if and only if it was not empty. */
  lemma AddThenDeleteTwice(added: seq<Server>, s: seq<Server>, f: Filter)
    requires added != [] && forall i :: 0 <= i < |added| ==> Matches(added[i], f)
    requires Matching(s, f) == 0
    ensures Deleted(Deleted(added + s, f), f) == s <==> s != []
  {
    hide Keep, Matching, Matches;
    var all := added + s;
    assert Matches(all[0], f);
    if s == [] {
      DeleteNeverEmpties(all, f);
      DeleteNeverEmpties(Deleted(all, f), f);
    } else {
      AddThenDelete(added, s, f);
      NoneInTail(s, f);
      if |added| > 1 {
        MatchInFront(added[1], s, f);
      }
    }
  }

  lemma MatchInFront(p: Server, s: seq<Server>, f: Filter)
    requires s != [] && Matches(p, f) && Keep(s[1..], f) == s[1..]
    ensures Deleted([p] + s, f) == s
  {
    hide Keep, Matches;
    assert ([p] + s)[2..] == s[1..] && ([p] + s)[1] == s[0];
  }

  lemma NoneInTail(s: seq<Server>, f: Filter)
    requires s != [] && Matching(s, f) == 0
    ensures Keep(s[1..], f) == s[1..] && !Matches(s[0], f) && Deleted(s, f) == s
  {
    KeepFacts(s[1..], f);
    assert s == [s[0]] + s[1..];
  }

  lemma DeleteNeverEmpties(s: seq<Server>, f: Filter)
    ensures Deleted(s, f) == [] <==> s == []
  {
    if !LeftOne(s, f) {
      DeleteOutcome(s, f);
    }
  }

  // ----- The cached fields

  lemma DeleteKeepsGood(g: Group, f: Filter)
    requires Good(g)
    ensures Good(DeleteGroup(g, f)) && DeleteGroup(g, f).servers == Deleted(g.servers, f)
    ensures DeleteCode(g, f) > 0 ==> DeleteCode(g, f) == g.number - DeleteGroup(g, f).number
    ensures DeleteCode(g, f) <= 0 ==> DeleteGroup(g, f).number == g.number
    ensures DeleteCode(g, f) < 0 <==> LeftOne(g.servers, f)
  {
    if !LeftOne(g.servers, f) {
      DeleteOutcome(g.servers, f);
    }
  }

  lemma CodeSign(g: Group, f: Filter)
    ensures DeleteCode(g, f) < 0 <==> LeftOne(g.servers, f)
    ensures DeleteCode(g, f) < 0 ==> DeleteCode(g, f) == E_UPS_LEFT_ONE && DeleteGroup(g, f) == g
  {
    if !LeftOne(g.servers, f) {
      DeleteOutcome(g.servers, f);
    }
  }

  lemma {:induction false} EditedFacts(s: seq<Server>, f: Filter, c: Change)
    requires Positive(s) && (c.weight.Some? ==> c.weight.value >= 1)
    ensures Positive(Edited(s, f, c))
  {
  }

  /** An edit reaches exactly the matching servers, in place. Doing it again changes nothing. */
  lemma EditTwice(g: Group, f: Filter, c: Change)
    requires f.down.None?
    ensures EditGroup(EditGroup(g, f, c), f, c) == EditGroup(g, f, c)
    ensures Matching(EditGroup(g, f, c).servers, f) == Matching(g.servers, f)
  {
    var s, r := g.servers, Edited(g.servers, f, c);
    assert Edited(r, f, c) == r;
    SameMatches(s, r, f);
  }

  lemma {:induction false} SameMatches(s: seq<Server>, r: seq<Server>, f: Filter)
    requires |s| == |r| && forall i :: 0 <= i < |s| ==> (Matches(s[i], f) <==> Matches(r[i], f))
    ensures Matching(s, f) == Matching(r, f)
  {
    if s != [] {
      assert Matches(s[0], f) <==> Matches(r[0], f);
      SameMatches(s[1..], r[1..], f);
    }
  }

  lemma EditKeepsGood(g: Group, f: Filter, c: Change)
    requires Good(g) && (c.weight.Some? ==> c.weight.value >= 1)
    ensures Good(EditGroup(g, f, c)) && EditGroup(g, f, c).number == g.number
  {
    EditedFacts(g.servers, f, c);
  }

  /** The servers made from addresses: each goes in front of the ones before. */
  function FromAddresses(addresses: seq<Address>, p: Server): (r: seq<Server>)
    ensures |r| == |addresses|
    ensures forall i :: 0 <= i < |r| ==> r[i] == p.(name := r[i].name)
  {
    if addresses == [] then []
    else FromAddresses(addresses[1..], p) + [p.(name := addresses[0].name)]
  }

  /** What adding does to a group, also when it stops halfway: a server for each of the first addresses, in
      front of the old ones; and for all of them unless an allocation failed. */
  lemma {:induction false} AddServersFacts(g: Group, addresses: seq<Address>, p: Server, answers: seq<bool>, count: int)
    requires Good(g) && p.weight >= 1 && count >= 0
    ensures var r := AddServers(g, addresses, p, answers, count);
            var k := |r.group.servers| - |g.servers|;
            && Good(r.group) && 0 <= k <= |addresses|
            && r.group.servers == FromAddresses(addresses[..k], p) + g.servers
            && (r.code >= 0 ==> r.code == count + k && k == |addresses|)
            && (r.code < 0 ==> r.code == E_SLAB_CALLOC || r.code == E_SLAB_ALLOC)
    decreases |addresses|
  {
    hide ClaimPeer, Good, FromAddresses, Prepend, Positive, Weights;
    var c := ClaimPeer(answers);
    ClaimCodes(answers);
    if addresses == [] || c.code != 0 {
      assert FromAddresses(addresses[..0], p) == [];
      assert [] + g.servers == g.servers;
    } else {
      var q := p.(name := addresses[0].name);
      PrependFacts(g, q);
      AddServersFacts(Prepend(g, q), addresses[1..], p, c.answers, count + 1);
      var r := AddServers(Prepend(g, q), addresses[1..], p, c.answers, count + 1);
      OneMoreAddress(addresses, p, |r.group.servers| - |g.servers|);
    }
  }

  lemma ClaimCodes(answers: seq<bool>)
    ensures var code := ClaimPeer(answers).code;
            code == 0 || code == E_SLAB_CALLOC || code == E_SLAB_ALLOC
  {
  }

  lemma PrependFacts(g: Group, q: Server)
    requires Good(g) && q.weight >= 1
    ensures Good(Prepend(g, q)) && Prepend(g, q).servers == [q] + g.servers
  {
    WeightsOfSum([q], g.servers);
  }

  lemma {:induction false} OneMoreAddress(addresses: seq<Address>, p: Server, k: nat)
    requires 1 <= k <= |addresses|
    ensures FromAddresses(addresses[..k], p)
            == FromAddresses(addresses[1..][..k - 1], p) + [p.(name := addresses[0].name)]
  {
    assert addresses[..k][1..] == addresses[1..][..k - 1];
  }

  lemma NothingAdded(g: Group, addresses: seq<Address>, p: Server, answers: seq<bool>, count: int)
    requires Good(g) && p.weight >= 1 && count >= 0
    ensures var r := AddServers(g, addresses, p, answers, count).group; |r.servers| == |g.servers| ==> r == g
  {
    hide ClaimPeer, Good;
    if addresses != [] && ClaimPeer(answers).code == 0 {
      var q := p.(name := addresses[0].name);
      PrependFacts(g, q);
      AddServersFacts(Prepend(g, q), addresses[1..], p, ClaimPeer(answers).answers, count + 1);
    }
  }

  /** A server added with any number of addresses to a group without a match for a filter that all of these match,
      also when the memory did not last, and deleted twice by that filter: list, number and total weight are what
      they were. When there was one address only, one delete is enough. */
  lemma AddThenDeleteTwiceOnGroup(g: Group, addresses: seq<Address>, p: Server, answers: seq<bool>, count: int,
        f: Filter)
    requires Good(g) && g.servers != [] && p.weight >= 1 && count >= 0
    requires Matching(g.servers, f) == 0
    requires forall i :: 0 <= i < |addresses| ==> Matches(p.(name := addresses[i].name), f)
    ensures var g1 := AddServers(g, addresses, p, answers, count).group;
            var g2 := DeleteGroup(g1, f);
            var before := if |g1.servers| == |g.servers| then g else g.(single := g.number == 1);
            && !LeftOne(g1.servers, f) && !LeftOne(g2.servers, f)
            && DeleteGroup(g2, f) == before && (|addresses| <= 1 ==> g2 == before)
  {
    hide Matches, Matching, Keep;
    AddServersFacts(g, addresses, p, answers, count);
    NothingAdded(g, addresses, p, answers, count);
    var g1 := AddServers(g, addresses, p, answers, count).group;
    var added := FromAddresses(addresses[..|g1.servers| - |g.servers|], p);
    FromAddressesMatch(addresses[..|g1.servers| - |g.servers|], p, f);
    AddThenDelete(added, g.servers, f);
    if added != [] {
      AddThenDeleteTwice(added, g.servers, f);
    }
    DeleteKeepsGood(g1, f);
    var g2 := DeleteGroup(g1, f);
    DeleteKeepsGood(g2, f);
    DeletesSetSingle(g1, f);
    DeletesSetSingle(g2, f);
  }

  /** The restoration by address. */
  lemma AddThenDeleteByName(g: Group, a: seq<byte>, p: Server, answers: seq<bool>)
    requires Good(g) && g.servers != [] && p.weight >= 1
    requires forall i :: 0 <= i < |g.servers| ==> g.servers[i].name != a
    ensures var g1 := AddServers(g, [Address(a)], p, answers, 0).group;
            DeleteGroup(g1, Filter(Some(a), None, Some(p.down))).servers == g.servers
  {
    var f := Filter(Some(a), None, Some(p.down));
    NoMatch(g.servers, f);
    AddThenDeleteTwiceOnGroup(g, [Address(a)], p, answers, 0, f);
  }

  lemma {:induction false} NoMatch(s: seq<Server>, f: Filter)
    requires forall i :: 0 <= i < |s| ==> !Matches(s[i], f)
    ensures Matching(s, f) == 0
  {
    hide Matches;
    if s != [] {
      NoMatch(s[1..], f);
    }
  }

  lemma {:induction false} FromAddressesMatch(addresses: seq<Address>, p: Server, f: Filter)
    requires forall i :: 0 <= i < |addresses| ==> Matches(p.(name := addresses[i].name), f)
    ensures forall i :: 0 <= i < |addresses| ==> Matches(FromAddresses(addresses, p)[i], f)
  {
    hide Matches;
    if addresses != [] {
      FromAddressesMatch(addresses[1..], p, f);
    }
  }

  lemma DeletesSetSingle(g: Group, f: Filter)
    requires Good(g)
    ensures var r := DeleteGroup(g, f); r.single == if r.number < g.number then r.number == 1 else g.single
  {
    DeleteKeepsGood(g, f);
  }
}
