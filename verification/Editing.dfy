/**
  hmdf_peer and smdf_peer: editing peers in place, keeping the cached sum of the weights.
 */
module Editing {
  import opened Bytes
  import opened Upstreams
  import opened UpstreamLaws
  import opened Peers
  import opened Registry

  /** The assignments of the loop body to the peer. */
  method EditPeer(p: Peer, c: Change)
    modifies p`weight, p`maxConns, p`maxFails, p`failTimeout, p`down
    ensures ServerOf(p) == Changed(old(ServerOf(p)), c)
  {
    if c.weight.Some? {
      p.weight := c.weight.value;
    }
    if c.maxConns.Some? {
      p.maxConns := c.maxConns.value;
    }
    if c.maxFails.Some? {
      p.maxFails := c.maxFails.value;
    }
    if c.failTimeout.Some? {
      p.failTimeout := c.failTimeout.value;
    }
    if c.down.Some? {
      p.down := c.down.value;
    }
  }

  /** Only this one server of the list changes. */
  method EditOne(ghost s: seq<Peer>, ghost head: Peer?, ghost i: nat, p: Peer, c: Change)
    requires Linked(s, head) && i < |s| && p == s[i]
    modifies p`weight, p`maxConns, p`maxFails, p`failTimeout, p`down
    ensures ServersOf(s) == old(ServersOf(s))[i := Changed(old(ServersOf(s))[i], c)]
  {
    hide Linked, Changed, ServersOf;
    ghost var before := ServersOf(s);
    forall j | 0 <= j < |s| && j != i ensures s[j] != p {
      if j < i { NoCycle(s, head, j, i); } else { NoCycle(s, head, i, j); }
    }
    EditPeer(p, c);
    forall j | 0 <= j < |s| ensures ServersOf(s)[j] == before[i := Changed(before[i], c)][j] {
      assert j != i ==> ServerOf(s[j]) == old(ServerOf(s[j]));
    }
  }

  /** The first `i` servers have been edited, and the sum of the weights goes with them. */
  ghost predicate Halfway(g: PeerGroup, group: Group, i: nat, f: Filter, c: Change)
    reads g, g.list
  {
    && i <= |g.list| == |group.servers| && Linked(g.list, g.peer) && AllApart(g.list)
    && ServersOf(g.list) == Edited(group.servers, f, c)[..i] + group.servers[i..]
    && g.totalWeight == group.totalWeight - Weights(group.servers) + Weights(ServersOf(g.list))
    && g.number == group.number && g.single == group.single
  }

  lemma Begin(g: PeerGroup, f: Filter, c: Change)
    requires Tidy(g)
    ensures Halfway(g, GroupOf(g), 0, f, c) && g.peer == PeerAt(g.list, 0) && |GroupOf(g).servers| == |g.list|
  {
    var s := GroupOf(g).servers;
    assert Edited(s, f, c)[..0] + s[0..] == s;
  }

  lemma AtTheCursor(g: PeerGroup, group: Group, i: nat, name: Option<seq<byte>>, server: Option<seq<byte>>, c: Change)
    requires Halfway(g, group, i, Filter(name, server, None), c) && i < |g.list|
    ensures |g.list| == |group.servers| && g.list[i].next == PeerAt(g.list, i + 1)
    ensures ServerOf(g.list[i]) == group.servers[i]
    ensures Matches(group.servers[i], Filter(name, server, None)) <==> Chosen(g.list[i], name, server)
  {
    assert ServersOf(g.list)[i] == ServerOf(g.list[i]);
  }

  lemma Unmatched(g: PeerGroup, group: Group, i: nat, f: Filter, c: Change)
    requires Halfway(g, group, i, f, c) && i < |group.servers| && !Matches(group.servers[i], f)
    ensures Halfway(g, group, i + 1, f, c)
  {
    var e := Edited(group.servers, f, c);
    assert e[..i + 1] + group.servers[i + 1..] == e[..i] + group.servers[i..];
  }

  lemma WeightsSet(s: seq<Server>, i: nat, p: Server)
    requires i < |s|
    ensures Weights(s[i := p]) == Weights(s) - s[i].weight + p.weight
  {
    assert s[i := p] == s[..i] + ([p] + s[i + 1..]);
    assert s == s[..i] + ([s[i]] + s[i + 1..]);
    WeightsOfSum(s[..i], [p] + s[i + 1..]);
    WeightsOfSum(s[..i], [s[i]] + s[i + 1..]);
    WeightsOfSum([p], s[i + 1..]);
    WeightsOfSum([s[i]], s[i + 1..]);
  }

  /** The body of the loop on a match. */
  method EditMatch(g: PeerGroup, peer: Peer, c: Change, ghost group: Group, ghost i: nat, ghost f: Filter)
    requires Halfway(g, group, i, f, c) && i < |g.list| && peer == g.list[i]
    requires Matches(group.servers[i], f) && ServerOf(peer) == group.servers[i]
    modifies g`totalWeight, peer`weight, peer`maxConns, peer`maxFails, peer`failTimeout, peer`down
    ensures Halfway(g, group, i + 1, f, c) && peer.next == PeerAt(g.list, i + 1)
  {
    hide AllApart, Linked, Edited, Weights, Changed, ServerOf, ServersOf, Matches;
    LinkAt(g.list, g.peer, i);
    WeightOf(peer, c);
    EditedMore(group.servers, i, f, c);
    if c.weight.Some? {
      g.totalWeight := g.totalWeight - peer.weight;
      g.totalWeight := g.totalWeight + c.weight.value;
    }
    EditOne(g.list, g.peer, i, peer, c);
  }

  lemma LinkAt(s: seq<Peer>, head: Peer?, i: nat)
    requires Linked(s, head) && i < |s|
    ensures s[i].next == PeerAt(s, i + 1)
  {
  }

  lemma WeightOf(p: Peer, c: Change)
    ensures ServerOf(p).weight == p.weight && Changed(ServerOf(p), c).weight == Set(c.weight, p.weight)
  {
  }

  /** One more server edited: the list and its weights. */
  lemma EditedMore(all: seq<Server>, i: nat, f: Filter, c: Change)
    requires i < |all| && Matches(all[i], f)
    ensures var s := Edited(all, f, c)[..i] + all[i..]; var p := Changed(all[i], c);
            && s[i := p] == Edited(all, f, c)[..i + 1] + all[i + 1..]
            && Weights(s[i := p]) == Weights(s) - all[i].weight + p.weight
  {
    var s := Edited(all, f, c)[..i] + all[i..];
    WeightsSet(s, i, Changed(all[i], c));
  }

  lemma EditDone(g: PeerGroup, group: Group, f: Filter, c: Change)
    requires Halfway(g, group, |g.list|, f, c) && Good(group) && (c.weight.Some? ==> c.weight.value >= 1)
    ensures Tidy(g) && GroupOf(g) == EditGroup(group, f, c)
  {
    var e := Edited(group.servers, f, c);
    assert e[..|g.list|] + group.servers[|g.list|..] == e;
    EditKeepsGood(group, f, c);
  }

  lemma MatchingMore(s: seq<Server>, i: nat, f: Filter)
    requires i < |s|
    ensures Matching(s[..i + 1], f) == Matching(s[..i], f) + if Matches(s[i], f) then 1 else 0
  {
    assert s[..i + 1] == s[..i] + [s[i]];
    KeepOfSum(s[..i], [s[i]], f);
  }

  /** hmdf_peer and smdf_peer on one group. */
  method EditPeers(g: PeerGroup, name: Option<seq<byte>>, server: Option<seq<byte>>, c: Change) returns (count: int)
    requires Tidy(g) && (c.weight.Some? ==> c.weight.value >= 1)
    modifies g`totalWeight, g.list`weight, g.list`maxConns, g.list`maxFails, g.list`failTimeout, g.list`down
    ensures Tidy(g) && GroupOf(g) == EditGroup(old(GroupOf(g)), Filter(name, server, None), c)
    ensures count == Matching(old(GroupOf(g)).servers, Filter(name, server, None))
  {
    hide ServersOf, Halfway, Tidy, GroupOf, EditGroup, Matches, Matching, Chosen, ServerOf, Good, Parts, PartsOf,
      Linked, AllApart;
    ghost var f, group, i := Filter(name, server, None), GroupOf(g), 0;
    var peer := g.peer;
    count := 0;
    Begin(g, f, c);
    TidyParts(g);
    assert group.servers[..0] == [];
    NoneMatching(f);
    while peer != null
      invariant 0 <= i <= |g.list| == |group.servers| && peer == PeerAt(g.list, i) && Halfway(g, group, i, f, c)
      invariant count == Matching(group.servers[..i], f)
      decreases |g.list| - i
    {
      AtTheCursor(g, group, i, name, server, c);
      MatchingMore(group.servers, i, f);
      if !Chosen(peer, name, server) {
        Unmatched(g, group, i, f, c);
        peer, i := peer.next, i + 1;
        continue;
      }
      EditMatch(g, peer, c, group, i, f);
      count := count + 1;
      peer, i := peer.next, i + 1;
    }
    assert group.servers[..i] == group.servers;
    EditDone(g, group, f, c);
  }

  lemma NoneMatching(f: Filter)
    ensures Matching([], f) == 0
  {
  }

  /** The same, seen from outside the group. */
  method EditWithin(g: PeerGroup, ghost slab: Slab, name: Option<seq<byte>>, server: Option<seq<byte>>, c: Change)
    returns (count: int)
    requires Tidy(g) && Held(g) <= slab.live && Held(g) !! slab.leaked && slab !in Reach(g)
    requires c.weight.Some? ==> c.weight.value >= 1
    modifies Reach(g)
    ensures Tidy(g) && g.next == old(g.next) && GroupOf(g) == EditGroup(old(GroupOf(g)), Filter(name, server, None), c)
    ensures count == Matching(old(GroupOf(g)).servers, Filter(name, server, None))
    ensures TradedGroup(g, slab) && Reach(g) <= old(Reach(g)) && g.list == old(g.list)
  {
    hide PartsOf, ServersOf, PooledOf, Tidy, GroupOf, EditGroup, Matching;
    count := EditPeers(g, name, server, c);
  }

  // ----- All upstreams

  /** One upstream in the loop over all of them. */
  method EditIn(reg: UpstreamTable, ghost k: nat, backup: bool, g: PeerGroup, name: Option<seq<byte>>,
        server: Option<seq<byte>>, c: Change)
    returns (count: int)
    requires reg.Valid() && k < |reg.ups| && g == TargetOf(reg.ups[k], backup) && reg.ups[k].zone >= 0
    requires c.weight.Some? ==> c.weight.value >= 1
    modifies Reach(g)
    ensures reg.Valid() && reg.repr == old(reg.repr) && reg.slab.answers == old(reg.slab.answers)
    ensures reg.slab.leaked == old(reg.slab.leaked) && reg.slab.live == old(reg.slab.live)
    ensures count == Matching(old(GroupOf(g)).servers, Filter(name, server, None))
    ensures reg.State() == old(reg.State())[k := SetTarget(old(UpstreamOf(reg.ups[k])), backup,
                                                           EditGroup(old(GroupOf(g)), Filter(name, server, None), c))]
  {
    hide PartsOf, Parts, Pooled, ServersOf, PooledOf, AllApart, Linked, Complete, Tidy, Good, GroupOf, EditGroup,
      Matching, ReachUp, HeldUp, TidyUp, UpstreamOf;
    RegistryAllocated(reg);
    Ready(reg, k, backup, g);
    OnlyPeers(g);
    OthersAway(reg, k, Reach(g));
    count := EditWithin(g, reg.slab, name, server, c);
    TargetChanged(reg.ups[k], backup, g, reg.slab);
    OneChanged(reg, k);
    OneStateChanged(reg, k);
  }

  lemma EditFromStep(ups: seq<Upstream>, i: nat, upsname: seq<byte>, backup: bool, f: Filter, c: Change, count: int,
        answers: seq<bool>)
    ensures i >= |ups| ==> EditFrom(ups, i, upsname, backup, f, c, count, answers) == Reply(ups, count, answers)
    ensures i < |ups| && (!Selects(ups[i], upsname) || Target(ups[i], backup).None?) ==>
              EditFrom(ups, i, upsname, backup, f, c, count, answers)
              == EditFrom(ups, i + 1, upsname, backup, f, c, count, answers)
    ensures i < |ups| && Selects(ups[i], upsname) && Target(ups[i], backup).Some? ==>
              var g := Target(ups[i], backup).value;
              EditFrom(ups, i, upsname, backup, f, c, count, answers)
              == EditFrom(ups[i := SetTarget(ups[i], backup, EditGroup(g, f, c))], i + 1, upsname, backup, f, c,
                          count + Matching(g.servers, f), answers)
  {
  }

  /** The body of the loop over the upstreams: the group that is asked for, if the upstream has the name and a zone. */
  method EditInOne(reg: UpstreamTable, i: nat, upsname: seq<byte>, backup: bool, name: Option<seq<byte>>,
        server: Option<seq<byte>>, c: Change, ghost count: int)
    returns (edited: nat)
    requires reg.Valid() && i < |reg.ups| && (c.weight.Some? ==> c.weight.value >= 1)
    modifies reg.repr
    ensures reg.Valid() && reg.repr == old(reg.repr) && reg.slab.answers == old(reg.slab.answers)
    ensures reg.slab.leaked == old(reg.slab.leaked) && reg.slab.live == old(reg.slab.live)
    ensures var f, answers := Filter(name, server, None), old(reg.slab.answers);
            EditFrom(old(reg.State()), i, upsname, backup, f, c, count, answers)
            == EditFrom(reg.State(), i + 1, upsname, backup, f, c, count + edited, answers)
  {
    hide EditFrom, EditGroup, Matching, UpstreamOf, GroupOf, Inside, TidyUp, ReachUp, HeldUp, Reach,
      UpstreamTable.Within, UpstreamTable.Covered, UpstreamTable.AllTidy, UpstreamTable.Separate,
      UpstreamTable.Balanced, UpstreamTable.State, Selects, Target, SetTarget;
    EditFromStep(reg.State(), i, upsname, backup, Filter(name, server, None), c, count, reg.slab.answers);
    Reading(reg, i, upsname, backup);
    var peers := reg.ups[i];
    if peers.name != upsname || peers.zone < 0 {
      return 0;
    }
    if backup {
      if peers.next == null {
        return 0;
      }
      peers := peers.next;
    }
    Ready(reg, i, backup, peers);
    TargetState(reg, i, backup, peers);
    edited := EditIn(reg, i, backup, peers, name, server, c);
  }

  /** hmdf_peer and smdf_peer. */
  method EditServers(reg: UpstreamTable, upsname: seq<byte>, backup: bool, name: Option<seq<byte>>,
        server: Option<seq<byte>>, c: Change)
    returns (count: int)
    requires reg.Valid() && (c.weight.Some? ==> c.weight.value >= 1)
    modifies reg.repr
    ensures reg.Valid() && reg.repr == old(reg.repr) && reg.slab.answers == old(reg.slab.answers)
    ensures reg.slab.leaked == old(reg.slab.leaked) && reg.slab.live == old(reg.slab.live)
    ensures Reply(reg.State(), count, reg.slab.answers)
            == if !reg.configured then Reply(old(reg.State()), E_NO_UPS, old(reg.slab.answers))
               else EditFrom(old(reg.State()), 0, upsname, backup, Filter(name, server, None), c, 0,
                 old(reg.slab.answers))
  {
    hide EditFrom, UpstreamTable.Within, UpstreamTable.Covered, UpstreamTable.AllTidy, UpstreamTable.Separate,
      UpstreamTable.Balanced, UpstreamTable.State;
    if !reg.configured {
      return E_NO_UPS;
    }
    ghost var f := Filter(name, server, None);
    count := 0;
    var i := 0;
    while i < |reg.ups|
      invariant i <= |reg.ups| && reg.Valid() && reg.repr == old(reg.repr) && reg.slab.answers == old(reg.slab.answers)
      invariant reg.slab.leaked == old(reg.slab.leaked) && reg.slab.live == old(reg.slab.live)
      invariant EditFrom(reg.State(), i, upsname, backup, f, c, count, reg.slab.answers)
                == EditFrom(old(reg.State()), 0, upsname, backup, f, c, 0, old(reg.slab.answers))
    {
      var edited := EditInOne(reg, i, upsname, backup, name, server, c, count);
      count := count + edited;
      i := i + 1;
    }
    EditFromStep(reg.State(), i, upsname, backup, f, c, count, reg.slab.answers);
  }
}
