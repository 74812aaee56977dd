/**
  hadd_peer and sadd_peer: a peer for each address, in front of the list, and a
  backup group when there is none yet.
 */
module Adding {
  import opened Bytes
  import opened Upstreams
  import opened UpstreamLaws
  import opened Peers
  import opened Registry

  /** The four allocations for a peer. What the socket address contains is left open. What has been allocated
      before one of them fails is leaked. */
  method AllocPeer(slab: Slab, zone: int, address: Address, server: seq<byte>) returns (peer: Peer?, code: int)
    modifies slab
    ensures code == ClaimPeer(old(slab.answers)).code && slab.answers == ClaimPeer(old(slab.answers)).answers
    ensures code == 0 ==>
              && peer != null && peer.sockaddr != null && peer.name != null && peer.server != null
              && fresh(peer) && fresh(peer.sockaddr) && fresh(peer.name) && fresh(peer.server) && Complete(peer)
              && peer.name.data == address.name && peer.server.data == server && peer.running == Idle(0)
              && Pooled(peer, zone) == Parts(peer)
              && slab.live == old(slab.live) + Parts(peer) && slab.leaked == old(slab.leaked)
    ensures code != 0 ==>
              && old(slab.leaked) <= slab.leaked && (forall o :: o in slab.leaked ==> o in old(slab.leaked) || fresh(o))
              && slab.live == old(slab.live) + (slab.leaked - old(slab.leaked))
    ensures code == 0 || code == E_SLAB_CALLOC || code == E_SLAB_ALLOC
    ensures code == E_SLAB_CALLOC ==> slab.leaked == old(slab.leaked)
    ensures code == E_SLAB_ALLOC ==>
              peer != null && fresh(peer) && peer.server == null && slab.leaked == old(slab.leaked) + Parts(peer)
  {
    hide Later, Granted, Parts, Pooled, Complete;
    peer := slab.AllocPeer();
    if peer == null {
      return null, E_SLAB_CALLOC;
    }
    peer.sockaddr := slab.Store([], zone);
    if peer.sockaddr == null {
      slab.Lose({peer});
      SomeParts(peer);
      return peer, E_SLAB_ALLOC;
    }
    peer.name := slab.Store(address.name, zone);
    if peer.name == null {
      slab.Lose({peer, peer.sockaddr});
      SomeParts(peer);
      return peer, E_SLAB_ALLOC;
    }
    peer.server := slab.Store(server, zone);
    if peer.server == null {
      slab.Lose({peer, peer.sockaddr, peer.name});
      SomeParts(peer);
      return peer, E_SLAB_ALLOC;
    }
    code := 0;
    AllInPool(peer, zone);
  }

  lemma SomeParts(p: Peer)
    requires p.server == null
    ensures p.sockaddr == null && p.name == null ==> Parts(p) == {p}
    ensures p.sockaddr != null && p.name == null ==> Parts(p) == {p, p.sockaddr}
    ensures p.sockaddr != null && p.name != null ==> Parts(p) == {p, p.sockaddr, p.name}
  {
  }

  /** A peer without its server text, and what has been allocated for it, are a few blocks. */
  lemma LeaksParts(p: Peer, before: set<object>)
    requires p.server == null && p !in before
    ensures Leaks(before, before + Parts(p), E_SLAB_ALLOC)
  {
    var lost := before + Parts(p) - before;
    assert |Block(p.sockaddr)| <= 1 && |Block(p.name)| <= 1 && Block(p.server) == {};
    assert Parts(p) == {p} + Block(p.sockaddr) + Block(p.name);
    assert Parts(p) == lost + (Parts(p) - lost);
    assert p in lost;
  }

  lemma AllInPool(p: Peer, zone: int)
    requires p.sockaddr != null && p.name != null && p.server != null
    requires p.sockaddr.zone == p.name.zone == p.server.zone == zone
    ensures Pooled(p, zone) == Parts(p) == {p, p.sockaddr, p.name, p.server}
    ensures Complete(p) <==> p.sockaddr != p.name && p.sockaddr != p.server && p.name != p.server
  {
  }

  /** Fill in the rest of a new peer. */
  method Fill(peer: Peer, p: Server)
    requires Data(peer.name) == p.name && Data(peer.server) == p.server && peer.running == Idle(0) && Starting(p)
    modifies peer`weight, peer`running, peer`maxConns, peer`maxFails, peer`failTimeout, peer`down
    ensures ServerOf(peer) == p
  {
    peer.weight := p.weight;
    peer.running := peer.running.(effectiveWeight := p.weight);
    peer.maxConns := p.maxConns;
    peer.maxFails := p.maxFails;
    peer.failTimeout := p.failTimeout;
    peer.down := p.down;
  }

  /** Put a peer in front of the list. */
  method Insert(g: PeerGroup, peer: Peer)
    requires Linked(g.list, g.peer) && peer !in g.list
    modifies g`number, g`totalWeight, g`single, g`peer, g`list, peer`next
    ensures g.list == [peer] + old(g.list) && Linked(g.list, g.peer)
    ensures g.number == old(g.number) + 1 && g.totalWeight == old(g.totalWeight) + peer.weight
            && g.single == (g.number == 1)
  {
    ghost var list := g.list;
    g.number := g.number + 1;
    g.totalWeight := g.totalWeight + peer.weight;
    g.single := g.number == 1;
    peer.next := g.peer;
    g.peer := peer;
    g.list := [peer] + g.list;
    forall i | 0 <= i < |g.list| ensures g.list[i].next == PeerAt(g.list, i + 1) {
      assert i > 0 ==> g.list[i] == list[i - 1] && list[i - 1].next == PeerAt(list, i);
    }
  }

  /** The group with one more peer. */
  method AddPeer(g: PeerGroup, peer: Peer, ghost p: Server)
    requires Tidy(g) && Complete(peer) && Parts(peer) !! PartsOf(g.list) && ServerOf(peer) == p && p.weight >= 1
    modifies g`number, g`totalWeight, g`single, g`peer, g`list, peer`next
    ensures Tidy(g) && g.list == [peer] + old(g.list) && GroupOf(g) == Prepend(old(GroupOf(g)), p)
  {
    hide PartsOf, Parts, Good, Linked, AllApart, Tidy, GroupOf, ServersOf, Complete, Prepend;
    TidyParts(g);
    ghost var list, group := g.list, GroupOf(g);
    PrependFacts(group, p);
    NotListed(peer, list);
    OneMore(peer, list);
    Insert(g, peer);
    OneMore(peer, list);
    TidyParts(g);
    PrependIs(group, p);
  }

  lemma NotListed(p: Peer, s: seq<Peer>)
    requires Parts(p) !! PartsOf(s)
    ensures p !in s
  {
    assert p in Parts(p);
  }

  lemma OneMore(p: Peer, s: seq<Peer>)
    ensures AllApart([p] + s) <==> Complete(p) && Parts(p) !! PartsOf(s) && AllApart(s)
    ensures ServersOf([p] + s) == [ServerOf(p)] + ServersOf(s)
    ensures PartsOf([p] + s) == Parts(p) + PartsOf(s)
    ensures forall zone :: PooledOf([p] + s, zone) == Pooled(p, zone) + PooledOf(s, zone)
  {
    assert ([p] + s)[1..] == s;
  }

  lemma PrependIs(g: Group, p: Server)
    ensures Prepend(g, p) == Group([p] + g.servers, g.number + 1, g.totalWeight + p.weight, g.number + 1 == 1)
  {
  }

  /** The group has what it had and new blocks; what the slab has handed out since is in the group or leaked. */
  twostate predicate Grown(g: PeerGroup, slab: Slab)
    reads slab, g, g.list
  {
    && slab.live == old(slab.live) + Held(g) + (slab.leaked - old(slab.leaked))
    && (forall o :: o in Reach(g) ==> o in old(Reach(g)) || fresh(o))
    && old(slab.leaked) <= slab.leaked && (forall o :: o in slab.leaked ==> o in old(slab.leaked) || fresh(o))
    && old(Held(g)) <= Held(g) && (forall o :: o in Held(g) ==> o in old(Held(g)) || fresh(o)) && Held(g) !! slab.leaked
  }

  /** The body of the loop over the addresses. */
  method AddAddress(g: PeerGroup, slab: Slab, address: Address, p: Server) returns (code: int)
    requires Tidy(g) && g.zone >= 0 && Held(g) <= slab.live && Held(g) !! slab.leaked && Starting(p)
    modifies slab, g`number, g`totalWeight, g`single, g`peer, g`list
    ensures Tidy(g) && Grown(g, slab)
    ensures code == ClaimPeer(old(slab.answers)).code && slab.answers == ClaimPeer(old(slab.answers)).answers
    ensures GroupOf(g) == if code == 0 then Prepend(old(GroupOf(g)), p.(name := address.name)) else old(GroupOf(g))
    ensures Leaks(old(slab.leaked), slab.leaked, code)
  {
    hide PartsOf, Parts, Pooled, PooledOf, Complete, AllApart, Good, Tidy, GroupOf, ServersOf, ServerOf, Prepend,
      ClaimPeer, Leaks;
    PartsAllocated(g.list);
    ghost var list, live, held := g.list, slab.live, Held(g);
    var peer;
    peer, code := NewPeer(slab, g.zone, address, p);
    if code != 0 {
      return;
    }
    ghost var parts := Parts(peer);
    AddPeer(g, peer, p.(name := address.name));
    OneMore(peer, list);
    assert Held(g) == held + parts && Reach(g) == old(Reach(g)) + parts;
    HeldWithin(live, held, parts, slab.leaked);
  }

  lemma HeldWithin(live: set<object>, held: set<object>, parts: set<object>, leaked: set<object>)
    requires held <= live && held !! leaked && parts !! leaked
    ensures live + parts == live + (held + parts) + (leaked - leaked) && (held + parts) !! leaked
  {
  }

  /** A peer with all its fields, but `next`. */
  method NewPeer(slab: Slab, zone: int, address: Address, p: Server) returns (peer: Peer?, code: int)
    requires Starting(p)
    modifies slab
    ensures code == ClaimPeer(old(slab.answers)).code && slab.answers == ClaimPeer(old(slab.answers)).answers
    ensures code == 0 ==>
              && peer != null && Complete(peer) && ServerOf(peer) == p.(name := address.name)
              && fresh(peer) && (forall o :: o in Parts(peer) ==> fresh(o)) && Pooled(peer, zone) == Parts(peer)
              && slab.live == old(slab.live) + Parts(peer) && slab.leaked == old(slab.leaked)
    ensures code != 0 ==>
              && old(slab.leaked) <= slab.leaked && (forall o :: o in slab.leaked ==> o in old(slab.leaked) || fresh(o))
              && slab.live == old(slab.live) + (slab.leaked - old(slab.leaked))
    ensures Leaks(old(slab.leaked), slab.leaked, code)
  {
    hide Parts, Pooled, ClaimPeer, ServerOf, Complete, Leaks;
    peer, code := AllocPeer(slab, zone, address, p.server);
    if code == 0 {
      FreshParts(peer);
      Fill(peer, p.(name := address.name));
    }
    if code == E_SLAB_ALLOC {
      LeaksParts(peer, old(slab.leaked));
    } else {
      LeaksNothing(slab.leaked, slab.leaked, code);
    }
  }

  twostate lemma FreshParts(new p: Peer)
    requires fresh(p) && (p.sockaddr != null ==> fresh(p.sockaddr)) && (p.name != null ==> fresh(p.name))
             && (p.server != null ==> fresh(p.server))
    ensures forall o :: o in Parts(p) ==> fresh(o)
  {
  }

  lemma AddServersStep(g: Group, addresses: seq<Address>, i: nat, p: Server, answers: seq<bool>, count: int)
    requires i <= |addresses|
    ensures i == |addresses| ==> AddServers(g, addresses[i..], p, answers, count) == Added(g, count, answers)
    ensures i < |addresses| ==>
              var c := ClaimPeer(answers);
              AddServers(g, addresses[i..], p, answers, count)
              == if c.code != 0 then Added(g, c.code, c.answers)
                 else AddServers(Prepend(g, p.(name := addresses[i].name)), addresses[i + 1..], p, c.answers, count + 1)
  {
    if i < |addresses| {
      assert addresses[i..][1..] == addresses[i + 1..];
    }
  }

  /** The loop over the addresses. */
  method AddPeers(g: PeerGroup, slab: Slab, addresses: seq<Address>, p: Server, start: nat) returns (count: int)
    requires Tidy(g) && g.zone >= 0 && Held(g) <= slab.live && Held(g) !! slab.leaked && Starting(p)
    modifies slab, g`number, g`totalWeight, g`single, g`peer, g`list
    ensures Tidy(g) && Grown(g, slab)
    ensures Added(GroupOf(g), count, slab.answers)
            == AddServers(old(GroupOf(g)), addresses, p, old(slab.answers), start)
    ensures Leaks(old(slab.leaked), slab.leaked, count)
  {
    hide PartsOf, PooledOf, Tidy, GroupOf, ServersOf, Prepend, ClaimPeer, AddServers, Leaks;
    count := start;
    var naddr := 0;
    assert addresses[0..] == addresses;
    while naddr < |addresses|
      invariant naddr <= |addresses| && Tidy(g) && Grown(g, slab) && slab.leaked == old(slab.leaked) && count >= 0
      invariant AddServers(GroupOf(g), addresses[naddr..], p, slab.answers, count)
                == AddServers(old(GroupOf(g)), addresses, p, old(slab.answers), start)
    {
      AddServersStep(GroupOf(g), addresses, naddr, p, slab.answers, count);
      var code := AddAddress(g, slab, addresses[naddr], p);
      if code != 0 {
        return code;
      }
      LeaksNothing(old(slab.leaked), slab.leaked, code);
      count := count + 1;
      naddr := naddr + 1;
    }
    LeaksNothing(slab.leaked, slab.leaked, count);
    AddServersStep(GroupOf(g), addresses, naddr, p, slab.answers, count);
  }

  /** The same, seen from outside the group. */
  method AddWithin(g: PeerGroup, slab: Slab, addresses: seq<Address>, p: Server, start: nat) returns (count: int)
    requires Tidy(g) && g.zone >= 0 && Held(g) <= slab.live && Held(g) !! slab.leaked && Starting(p)
             && slab !in Reach(g)
    modifies slab, Reach(g)
    ensures Tidy(g) && TradedGroup(g, slab) && g.next == old(g.next) && forall q :: q in g.list ==> q in Reach(g)
    ensures Added(GroupOf(g), count, slab.answers)
            == AddServers(old(GroupOf(g)), addresses, p, old(slab.answers), start)
    ensures Leaks(old(slab.leaked), slab.leaked, count) && old(slab.live) <= slab.live
  {
    hide PartsOf, PooledOf, Tidy, GroupOf, ServersOf, AddServers, Leaks;
    count := AddPeers(g, slab, addresses, p, start);
    Regained(old(slab.live), old(Held(g)), Held(g), slab.leaked - old(slab.leaked));
  }

  lemma Regained(live: set<object>, before: set<object>, after: set<object>, lost: set<object>)
    requires before <= live && before <= after
    ensures live + after + lost == live - before + after + lost
  {
  }

  // ----- All upstreams

  /** One upstream trades blocks, and the others are the same. */
  method AddTo(reg: UpstreamTable, ghost k: nat, backup: bool, g: PeerGroup, addresses: seq<Address>, p: Server,
        start: nat)
    returns (count: int)
    requires reg.Valid() && k < |reg.ups| && g == TargetOf(reg.ups[k], backup) && reg.ups[k].zone >= 0 && Starting(p)
    modifies reg.slab, Reach(g)
    ensures reg.repr == old(reg.repr) && TidyUp(reg.ups[k]) && Traded(reg.ups[k], reg.slab)
    ensures forall j :: 0 <= j < |reg.ups| && j != k ==> Same(reg.ups[j])
    ensures forall o :: o in ReachUp(reg.ups[k]) ==> o in old(reg.repr) || fresh(o)
    ensures Added(GroupOf(g), count, reg.slab.answers)
            == AddServers(old(GroupOf(g)), addresses, p, old(reg.slab.answers), start)
    ensures UpstreamOf(reg.ups[k]) == SetTarget(old(UpstreamOf(reg.ups[k])), backup, GroupOf(g))
    ensures Leaks(old(reg.slab.leaked), reg.slab.leaked, count) && fresh(reg.slab.leaked - old(reg.slab.leaked))
    ensures old(reg.slab.live) <= reg.slab.live
  {
    hide Leaks, PartsOf, PooledOf, Tidy, Good, GroupOf, AddServers, ReachUp, HeldUp, TidyUp, UpstreamOf;
    RegistryAllocated(reg);
    Ready(reg, k, backup, g);
    OnlyPeers(g);
    OthersAway(reg, k, Reach(g));
    count := AddWithin(g, reg.slab, addresses, p, start);
    TargetChanged(reg.ups[k], backup, g, reg.slab);
  }

  /** One upstream in the loop over all of them. */
  method AddIn(reg: UpstreamTable, ghost k: nat, backup: bool, g: PeerGroup, addresses: seq<Address>, p: Server,
        start: nat)
    returns (count: int)
    requires reg.Valid() && k < |reg.ups| && g == TargetOf(reg.ups[k], backup) && reg.ups[k].zone >= 0 && Starting(p)
    modifies reg`repr, reg.slab, Reach(g)
    ensures reg.Valid() && old(reg.repr) <= reg.repr && fresh(reg.repr - old(reg.repr))
    ensures var r := AddServers(old(GroupOf(g)), addresses, p, old(reg.slab.answers), start);
            && count == r.code && reg.slab.answers == r.answers
            && reg.State() == old(reg.State())[k := SetTarget(old(UpstreamOf(reg.ups[k])), backup, r.group)]
    ensures Leaks(old(reg.slab.leaked), reg.slab.leaked, count) && fresh(reg.slab.leaked - old(reg.slab.leaked))
    ensures old(reg.slab.live) <= reg.slab.live
  {
    hide Leaks, PartsOf, PooledOf, Tidy, Good, GroupOf, AddServers, ReachUp, HeldUp, TidyUp, UpstreamOf, Same, Traded,
      SetTarget, Reach, Held, Inside, UpstreamTable.Covered, UpstreamTable.AllTidy, UpstreamTable.Separate,
      UpstreamTable.Balanced;
    RegistryAllocated(reg);
    Ready(reg, k, backup, g);
    count := AddTo(reg, k, backup, g, addresses, p, start);
    TableAway(reg);
    reg.repr := reg.repr + ReachUp(reg.ups[k]);
    Reached(reg.ups[k]);
    OneChanged(reg, k);
    OneStateChanged(reg, k);
  }

  lemma TableAway(reg: UpstreamTable)
    ensures forall j :: 0 <= j < |reg.ups| ==> Away(reg.ups[j], {reg, reg.slab})
  {
  }

  /** Create and link an empty group. */
  method LinkBackup(reg: UpstreamTable, ghost k: nat, u: PeerGroup) returns (created: bool)
    requires reg.Valid() && k < |reg.ups| && u == reg.ups[k] && u.zone >= 0 && u.next == null
    modifies reg.slab, u`next
    ensures reg.repr == old(reg.repr) && TidyUp(u) && Traded(u, reg.slab)
    ensures forall j :: 0 <= j < |reg.ups| && j != k ==> Same(reg.ups[j])
    ensures forall o :: o in ReachUp(u) ==> o in old(reg.repr) || fresh(o)
    ensures created == Granted(old(reg.slab.answers)) && reg.slab.answers == Later(old(reg.slab.answers))
    ensures UpstreamOf(u) == if created then SetTarget(old(UpstreamOf(u)), true, EMPTY) else old(UpstreamOf(u))
    ensures created == (u.next != null)
    ensures reg.slab.leaked == old(reg.slab.leaked) && old(reg.slab.live) <= reg.slab.live
  {
    hide Held, Parts, Complete, Granted, Later, PartsOf, PooledOf, Tidy, Good, GroupOf, ReachUp, HeldUp, TidyUp,
      UpstreamOf, Linked, AllApart, ServersOf, UpstreamTable.Covered, UpstreamTable.AllTidy, UpstreamTable.Separate,
      UpstreamTable.Balanced;
    RegistryAllocated(reg);
    Ready(reg, k, false, u);
    OnlyPeers(u);
    OthersAway(reg, k, {u});
    TableAway(reg);
    var tmp := reg.slab.AllocGroup(u.name, u.zone);
    if tmp == null {
      return false;
    }
    u.next := tmp;
    created := true;
    TidyParts(tmp);
    BackupCreated(u, tmp, reg.slab);
  }

  /** A missing backup group is created empty. */
  method CreateBackup(reg: UpstreamTable, ghost k: nat, u: PeerGroup) returns (created: bool)
    requires reg.Valid() && k < |reg.ups| && u == reg.ups[k] && u.zone >= 0 && u.next == null
    modifies reg`repr, reg.slab, u`next
    ensures reg.Valid() && old(reg.repr) <= reg.repr && fresh(reg.repr - old(reg.repr))
    ensures created == Granted(old(reg.slab.answers)) == (u.next != null)
            && reg.slab.answers == Later(old(reg.slab.answers))
    ensures reg.State() == if created then old(reg.State())[k := SetTarget(old(UpstreamOf(u)), true, EMPTY)]
                           else old(reg.State())
    ensures reg.slab.leaked == old(reg.slab.leaked) && old(reg.slab.live) <= reg.slab.live
  {
    hide PartsOf, PooledOf, Tidy, Good, GroupOf, ReachUp, HeldUp, TidyUp, UpstreamOf, Same, Traded, SetTarget, Reach,
      Held, Inside, UpstreamTable.Covered, UpstreamTable.AllTidy, UpstreamTable.Separate, UpstreamTable.Balanced;
    RegistryAllocated(reg);
    TargetState(reg, k, false, u);
    created := LinkBackup(reg, k, u);
    TableAway(reg);
    reg.repr := reg.repr + ReachUp(u);
    Reached(u);
    OneChanged(reg, k);
    OneStateChanged(reg, k);
  }

  lemma AddFromStep(ups: seq<Upstream>, i: nat, upsname: seq<byte>, backup: bool, addresses: seq<Address>, p: Server,
        count: int, answers: seq<bool>)
    ensures i >= |ups| ==> AddFrom(ups, i, upsname, backup, addresses, p, count, answers) == Reply(ups, count, answers)
    ensures i < |ups| && !Selects(ups[i], upsname) ==>
              AddFrom(ups, i, upsname, backup, addresses, p, count, answers)
              == AddFrom(ups, i + 1, upsname, backup, addresses, p, count, answers)
    ensures i < |ups| && Selects(ups[i], upsname) && Target(ups[i], backup).Some? ==>
              var r := AddServers(Target(ups[i], backup).value, addresses, p, answers, count);
              var ups' := ups[i := SetTarget(ups[i], backup, r.group)];
              AddFrom(ups, i, upsname, backup, addresses, p, count, answers)
              == if r.code < 0 then Reply(ups', r.code, r.answers)
                 else AddFrom(ups', i + 1, upsname, backup, addresses, p, r.code, r.answers)
    ensures i < |ups| && Selects(ups[i], upsname) && Target(ups[i], backup).None? ==>
              AddFrom(ups, i, upsname, backup, addresses, p, count, answers)
              == if !Granted(answers) then Reply(ups, E_SLAB_CALLOC, Later(answers))
                 else AddFrom(ups[i := SetTarget(ups[i], backup, EMPTY)], i, upsname, backup, addresses, p, count,
                   Later(answers))
  {
    hide AddServers;
    if i < |ups| && Target(ups[i], backup).None? {
      var ups' := ups[i := SetTarget(ups[i], backup, EMPTY)];
      var r := AddServers(EMPTY, addresses, p, Later(answers), count);
      assert ups'[i := SetTarget(ups'[i], backup, r.group)] == ups[i := SetTarget(ups[i], backup, r.group)];
    }
  }

  /** The body of the loop over the upstreams: the group that is asked for, if the upstream has the name and a zone. */
  method InsertIntoOne(reg: UpstreamTable, i: nat, upsname: seq<byte>, backup: bool, addresses: seq<Address>, p: Server,
        count: nat)
    returns (code: int)
    requires reg.Valid() && i < |reg.ups| && Starting(p)
    modifies reg, reg.repr
    ensures reg.Valid() && old(reg.repr) <= reg.repr && fresh(reg.repr - old(reg.repr))
    ensures AddFrom(old(reg.State()), i, upsname, backup, addresses, p, count, old(reg.slab.answers))
            == if code < 0 then Reply(reg.State(), code, reg.slab.answers)
               else AddFrom(reg.State(), i + 1, upsname, backup, addresses, p, code, reg.slab.answers)
    ensures Leaks(old(reg.slab.leaked), reg.slab.leaked, code) && fresh(reg.slab.leaked - old(reg.slab.leaked))
    ensures old(reg.slab.live) <= reg.slab.live
  {
    hide AddFrom, AddServers, UpstreamOf, GroupOf, Inside, TidyUp, ReachUp, HeldUp, Reach, UpstreamTable.Within,
      UpstreamTable.Covered, UpstreamTable.AllTidy, UpstreamTable.Separate, UpstreamTable.Balanced,
      UpstreamTable.State, Selects, Target, SetTarget;
    AddFromStep(reg.State(), i, upsname, backup, addresses, p, count, reg.slab.answers);
    Reading(reg, i, upsname, backup);
    var peers := reg.ups[i];
    if peers.name != upsname || peers.zone < 0 {
      return count;
    }
    if backup {
      if peers.next == null {
        Ready(reg, i, false, peers);
        Reached(peers);
        var created := CreateBackup(reg, i, peers);
        if !created {
          return E_SLAB_CALLOC;
        }
        AddFromStep(reg.State(), i, upsname, backup, addresses, p, count, reg.slab.answers);
        Reading(reg, i, upsname, backup);
      }
      peers := peers.next;
    }
    Ready(reg, i, backup, peers);
    TargetState(reg, i, backup, peers);
    code := AddIn(reg, i, backup, peers, addresses, p, count);
  }

  /** hadd_peer and sadd_peer. `addresses` is what the server text resolves to, if it does. */
  method InsertServers(reg: UpstreamTable, upsname: seq<byte>, backup: bool, addresses: Option<seq<Address>>, p: Server)
    returns (count: int)
    requires reg.Valid() && Starting(p)
    modifies reg, reg.repr
    ensures reg.Valid() && old(reg.repr) <= reg.repr && fresh(reg.repr - old(reg.repr))
    ensures Reply(reg.State(), count, reg.slab.answers)
            == if addresses.None? then Reply(old(reg.State()), E_PARSE_URL, old(reg.slab.answers))
               else if !reg.configured then Reply(old(reg.State()), E_NO_UPS, old(reg.slab.answers))
               else AddFrom(old(reg.State()), 0, upsname, backup, addresses.value, p, 0, old(reg.slab.answers))
    ensures Leaks(old(reg.slab.leaked), reg.slab.leaked, count) && fresh(reg.slab.leaked - old(reg.slab.leaked))
    ensures old(reg.slab.live) <= reg.slab.live
  {
    hide AddFrom, UpstreamTable.Within, UpstreamTable.Covered, UpstreamTable.AllTidy, UpstreamTable.Separate,
      UpstreamTable.Balanced, UpstreamTable.State;
    if addresses.None? {
      return E_PARSE_URL;
    }
    if !reg.configured {
      return E_NO_UPS;
    }
    count := 0;
    var i := 0;
    while i < |reg.ups|
      invariant i <= |reg.ups| && reg.Valid() && old(reg.repr) <= reg.repr && fresh(reg.repr - old(reg.repr))
      invariant count >= 0 && reg.slab.leaked == old(reg.slab.leaked) && old(reg.slab.live) <= reg.slab.live
      invariant AddFrom(reg.State(), i, upsname, backup, addresses.value, p, count, reg.slab.answers)
                == AddFrom(old(reg.State()), 0, upsname, backup, addresses.value, p, 0, old(reg.slab.answers))
    {
      count := InsertIntoOne(reg, i, upsname, backup, addresses.value, p, count);
      if count < 0 {
        return;
      }
      i := i + 1;
    }
    AddFromStep(reg.State(), i, upsname, backup, addresses.value, p, count, reg.slab.answers);
  }
}
