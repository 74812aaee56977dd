/**
  hdel_peer and sdel_peer: deleting peers from a group while walking its list.
 */
module Removing {
  import opened Bytes
  import opened Sequences
  import opened Upstreams
  import opened UpstreamLaws
  import opened Peers
  import opened Registry

  /** Free a peer's record and those of its blocks that lie in the zone. */
  method FreePeer(slab: Slab, peer: Peer, zone: int)
    requires Complete(peer) && Pooled(peer, zone) <= slab.live
    modifies slab`live
    ensures slab.live == old(slab.live) - Pooled(peer, zone)
  {
    if peer.sockaddr.zone == zone {
      slab.Free(peer.sockaddr);
    }
    if peer.name.zone == zone {
      slab.Free(peer.name);
    }
    if peer.server.zone == zone {
      slab.Free(peer.server);
    }
    slab.Free(peer);
  }

  /** Lead the list past a peer, and count it out. The loop goes on behind `cursor`: the previous peer, or else
      the new head. */
  method CutOut(g: PeerGroup, peer: Peer, previous: Peer, ghost i: nat) returns (cursor: Peer)
    requires Linked(g.list, g.peer) && |g.list| >= 2 && i < |g.list| && peer == g.list[i]
    requires previous == g.list[if i == 0 then 0 else i - 1]
    modifies g`number, g`single, g`totalWeight, g`peer, g`list, previous`next
    ensures g.list == Without(old(g.list), i) && Linked(g.list, g.peer) && cursor == g.list[if i == 0 then 0 else i - 1]
    ensures g.number == old(g.number) - 1 && g.single == (g.number == 1)
            && g.totalWeight == old(g.totalWeight) - peer.weight
  {
    ghost var s, r := g.list, Without(g.list, i);
    forall j, k | 0 <= j < k < |s| ensures s[j] != s[k] {
      NoCycle(s, g.peer, j, k);
    }
    assert peer.next == PeerAt(s, i + 1);
    g.number := g.number - 1;
    g.single := g.number == 1;
    g.totalWeight := g.totalWeight - peer.weight;
    cursor := previous;
    if peer == g.peer {
      g.peer := peer.next;
      cursor := g.peer;
    } else {
      previous.next := peer.next;
    }
    g.list := r;
    forall j | 0 <= j < |r| ensures r[j].next == PeerAt(r, j + 1) {
      assert old(s[if j < i then j else j + 1].next) == PeerAt(s, if j < i then j + 1 else j + 2);
    }
  }

  /** The group without the peer. */
  method TakeOut(g: PeerGroup, peer: Peer, previous: Peer, ghost i: nat) returns (cursor: Peer)
    requires Tidy(g) && |g.list| >= 2 && i < |g.list| && peer == g.list[i]
             && previous == g.list[if i == 0 then 0 else i - 1]
    modifies g`number, g`single, g`totalWeight, g`peer, g`list, previous`next
    ensures Tidy(g) && g.list == Without(old(g.list), i) && cursor == g.list[if i == 0 then 0 else i - 1]
    ensures ServersOf(g.list) == Without(old(ServersOf(g.list)), i)
    ensures g.number == old(g.number) - 1 && g.single == (g.number == 1)
  {
    hide PartsOf, Parts, ServersOf, AllApart, Linked, Complete, Good, Tidy, GroupOf, ServerOf, Weights;
    TidyParts(g);
    WithoutApart(g.list, i);
    WithoutServers(g.list, i);
    WithoutGood(GroupOf(g), i);
    WeightAt(g.list, i);
    cursor := CutOut(g, peer, previous, i);
    TidyParts(g);
  }

  /** The body of the loop on a match. */
  method Unlink(g: PeerGroup, slab: Slab, peer: Peer, previous: Peer, ghost i: nat) returns (cursor: Peer)
    requires Tidy(g) && |g.list| >= 2 && i < |g.list| && peer == g.list[i]
             && previous == g.list[if i == 0 then 0 else i - 1]
    requires PooledOf(g.list, g.zone) <= slab.live
    modifies slab`live, g`number, g`single, g`totalWeight, g`peer, g`list, previous`next
    ensures Tidy(g) && g.list == Without(old(g.list), i) && cursor == g.list[if i == 0 then 0 else i - 1]
    ensures ServersOf(g.list) == Without(old(ServersOf(g.list)), i)
    ensures g.number == old(g.number) - 1 && g.single == (g.number == 1)
    ensures slab.live == old(slab.live) - old(PooledOf(g.list, g.zone)) + PooledOf(g.list, g.zone)
    ensures PooledOf(g.list, g.zone) <= old(PooledOf(g.list, g.zone)) && PartsOf(g.list) <= old(PartsOf(g.list))
  {
    hide PartsOf, Parts, Pooled, ServersOf, PooledOf, AllApart, Linked, Complete, Good, GroupOf;
    WithoutBlocks(g.list, i, g.zone);
    WithoutApart(g.list, i);
    PooledIsPart(peer, g.zone);
    OneGone(slab.live, PooledOf(g.list, g.zone), PooledOf(Without(g.list, i), g.zone), Pooled(peer, g.zone));
    cursor := TakeOut(g, peer, previous, i);
    FreePeer(slab, peer, g.zone);
  }

  lemma OneGone(live: set<object>, all: set<object>, rest: set<object>, gone: set<object>)
    requires all <= live && all == rest + gone && rest !! gone
    ensures live - gone == live - all + rest
  {
  }

  lemma WeightAt(s: seq<Peer>, i: nat)
    requires i < |s|
    ensures ServersOf(s)[i].weight == s[i].weight
  {
  }

  lemma WithoutGood(g: Group, i: nat)
    requires Good(g) && i < |g.servers|
    ensures Good(Group(Without(g.servers, i), g.number - 1, g.totalWeight - g.servers[i].weight, g.number - 1 == 1))
  {
    WithoutWeights(g.servers, i);
  }

  lemma PooledIsPart(p: Peer, zone: int)
    ensures Pooled(p, zone) <= Parts(p)
  {
  }

  // ----- The loop

  /** With the cursor at `i` of what is left, `current`, of the servers `all`: the rest of the loop makes
      of it what the whole loop makes of `all`. */
  ghost predicate Progress(all: seq<Server>, current: seq<Server>, i: nat, f: Filter) {
    i <= |current| && if i == 0 then current == all
                      else !LeftOne(all, f) && current[..i] + Keep(current[i..], f) == Survivors(all, f)
  }

  lemma StepOver(all: seq<Server>, current: seq<Server>, i: nat, f: Filter)
    requires Progress(all, current, i, f) && i < |current| && !Matches(current[i], f)
    ensures Progress(all, current, i + 1, f)
  {
    assert current[..i + 1] == current[..i] + [current[i]];
    assert current[i..][1..] == current[i + 1..];
  }

  lemma StepDrop(all: seq<Server>, current: seq<Server>, i: nat, f: Filter)
    requires Progress(all, current, i, f) && i < |current| && Matches(current[i], f) && |current| >= 2
    ensures var rest := Without(current, i); if i == 0 then Progress(all, rest, 1, f) else Progress(all, rest, i, f)
  {
    var rest := Without(current, i);
    if i == 0 {
      assert rest[..1] == [current[1]] && rest[1..] == current[2..];
    } else {
      assert rest[..i] == current[..i] && rest[i..] == current[i..][1..];
    }
  }

  lemma AtTheEnd(all: seq<Server>, current: seq<Server>, f: Filter)
    requires Progress(all, current, |current|, f)
    ensures !LeftOne(all, f) && current == Survivors(all, f)
  {
    assert current[..|current|] == current;
  }

  /** Of the blocks `before`, held when `live0` was live, only `held` are left, and the others have been freed. */
  ghost predicate Shed(live0: set<object>, before: set<object>, live: set<object>, held: set<object>) {
    live == live0 - before + held && held <= before && held <= live
  }

  lemma ShedMore(live0: set<object>, before: set<object>, live: set<object>, held: set<object>, rest: set<object>)
    requires Shed(live0, before, live, held) && rest <= held
    ensures Shed(live0, before, live - held + rest, rest)
  {
  }

  lemma ShedNone(live: set<object>, held: set<object>)
    requires held <= live
    ensures Shed(live, held, live, held)
  {
  }

  lemma ShedAll(live0: set<object>, before: set<object>, live: set<object>, held: set<object>)
    requires Shed(live0, before, live, held)
    ensures live == live0 - before + held && held <= before && held <= live
  {
  }

  /** The loop has come to index `i` of what it has left of `group`. */
  ghost predicate Underway(g: PeerGroup, group: Group, i: nat, f: Filter)
    reads g, g.list
  {
    && i <= |g.list| <= |group.servers| && Tidy(g) && Good(group) && Progress(group.servers, ServersOf(g.list), i, f)
    && g.single == (if |g.list| == |group.servers| then group.single else g.number == 1)
    && (i == 0 ==> GroupOf(g) == group)
  }

  lemma Begin(g: PeerGroup, f: Filter)
    requires Tidy(g)
    ensures Underway(g, GroupOf(g), 0, f) && g.peer == PeerAt(g.list, 0) && |GroupOf(g).servers| == |g.list|
  {
  }

  /** What the loop sees at the cursor. */
  lemma AtTheCursor(g: PeerGroup, group: Group, i: nat, name: Option<seq<byte>>, server: Option<seq<byte>>, down: nat)
    requires Underway(g, group, i, Filter(name, server, Some(down))) && i < |g.list|
    ensures g.list[i].next == PeerAt(g.list, i + 1) && g.number == |g.list| && |ServersOf(g.list)| == |g.list|
    ensures Matches(ServersOf(g.list)[i], Filter(name, server, Some(down)))
            <==> Chosen(g.list[i], name, server) && g.list[i].down == down
  {
  }

  lemma NoMatch(g: PeerGroup, group: Group, i: nat, f: Filter)
    requires Underway(g, group, i, f) && i < |g.list| && !Matches(ServersOf(g.list)[i], f)
    ensures Underway(g, group, i + 1, f)
  {
    StepOver(group.servers, ServersOf(g.list), i, f);
  }

  lemma LastOne(g: PeerGroup, group: Group, i: nat, f: Filter)
    requires Underway(g, group, i, f) && i < |g.list| && Matches(ServersOf(g.list)[i], f) && g.number == 1
    ensures Tidy(g) && GroupOf(g) == group == DeleteGroup(group, f) && DeleteCode(group, f) == E_UPS_LEFT_ONE
  {
  }

  lemma AllDone(g: PeerGroup, group: Group, f: Filter)
    requires Underway(g, group, |g.list|, f)
    ensures Tidy(g) && GroupOf(g) == DeleteGroup(group, f) && DeleteCode(group, f) == |group.servers| - |g.list|
  {
    AtTheEnd(group.servers, ServersOf(g.list), f);
    DeleteOutcome(group.servers, f);
  }

  /** The body of the loop on a match: the cursor ends up on a server that stays. */
  method Delete(g: PeerGroup, slab: Slab, peer: Peer, previous: Peer, ghost group: Group, ghost i: nat, ghost f: Filter,
        ghost live: set<object>, ghost before: set<object>)
    returns (cursor: Peer, ghost i': nat)
    requires Underway(g, group, i, f) && i < |g.list| && Matches(ServersOf(g.list)[i], f) && g.number != 1
    requires peer == g.list[i] && previous == g.list[if i == 0 then 0 else i - 1]
    requires Shed(live, before, slab.live, PooledOf(g.list, g.zone))
    modifies slab`live, g`number, g`single, g`totalWeight, g`peer, g`list, previous`next
    ensures Underway(g, group, i', f) && |g.list| == old(|g.list|) - 1
    ensures i' == (if i == 0 then 1 else i) <= |g.list| && cursor == g.list[i' - 1] && cursor.next == PeerAt(g.list, i')
    ensures Shed(live, before, slab.live, PooledOf(g.list, g.zone))
    ensures forall p :: p in g.list ==> p in old(g.list)
  {
    hide PartsOf, Parts, Pooled, ServersOf, PooledOf, AllApart, Complete, Progress, Keep, Survivors, Matches, Shed,
      Tidy, Good, Underway, Linked;
    AtAMatch(g, group, i, f);
    StepDrop(group.servers, ServersOf(g.list), i, f);
    ShedAll(live, before, slab.live, PooledOf(g.list, g.zone));
    cursor := Unlink(g, slab, peer, previous, i);
    ShedMore(live, before, old(slab.live), old(PooledOf(g.list, g.zone)), PooledOf(g.list, g.zone));
    i' := if i == 0 then 1 else i;
    Resume(g, group, i', f);
  }

  lemma AtAMatch(g: PeerGroup, group: Group, i: nat, f: Filter)
    requires Underway(g, group, i, f) && i < |g.list| && g.number != 1
    ensures |g.list| >= 2 && |g.list| <= |group.servers| && Tidy(g) && Good(group)
    ensures Progress(group.servers, ServersOf(g.list), i, f)
  {
  }

  lemma Resume(g: PeerGroup, group: Group, i: nat, f: Filter)
    requires 1 <= i <= |g.list| < |group.servers| && Tidy(g) && Good(group)
             && Progress(group.servers, ServersOf(g.list), i, f)
    requires g.single == (g.number == 1)
    ensures Underway(g, group, i, f) && g.list[i - 1].next == PeerAt(g.list, i)
  {
  }

  /** hdel_peer and sdel_peer on one group. */
  method DeletePeers(g: PeerGroup, slab: Slab, name: Option<seq<byte>>, server: Option<seq<byte>>, down: nat)
    returns (count: int)
    requires Tidy(g) && PooledOf(g.list, g.zone) <= slab.live
    modifies slab`live, g`number, g`single, g`totalWeight, g`peer, g`list, g.list`next
    ensures Tidy(g) && GroupOf(g) == DeleteGroup(old(GroupOf(g)), Filter(name, server, Some(down)))
    ensures count == DeleteCode(old(GroupOf(g)), Filter(name, server, Some(down)))
    ensures slab.live == old(slab.live) - old(PooledOf(g.list, g.zone)) + PooledOf(g.list, g.zone)
    ensures PooledOf(g.list, g.zone) <= old(PooledOf(g.list, g.zone))
    ensures forall p :: p in g.list ==> p in old(g.list)
  {
    hide PartsOf, ServersOf, PooledOf, Underway, Tidy, GroupOf, DeleteGroup, DeleteCode, Matches, Chosen, Shed, Parts,
      Pooled, Complete, AllApart, Linked, Good, ServerOf;
    ghost var f, group, i := Filter(name, server, Some(down)), GroupOf(g), 0;
    ghost var live, before := slab.live, PooledOf(g.list, g.zone);
    var peer, previous := g.peer, g.peer;
    count := 0;
    Begin(g, f);
    ShedNone(live, before);
    while peer != null
      invariant 0 <= i <= |g.list| && peer == PeerAt(g.list, i) && Underway(g, group, i, f)
      invariant peer != null ==> previous == g.list[if i == 0 then 0 else i - 1]
      invariant count == |group.servers| - |g.list| && Shed(live, before, slab.live, PooledOf(g.list, g.zone))
      invariant forall p :: p in g.list ==> p in old(g.list)
      decreases |g.list| - i
    {
      AtTheCursor(g, group, i, name, server, down);
      assert previous in g.list;
      if !Chosen(peer, name, server) || peer.down != down {
        NoMatch(g, group, i, f);
        previous, peer, i := peer, peer.next, i + 1;
        continue;
      }
      if g.number == 1 {
        LastOne(g, group, i, f);
        ShedAll(live, before, slab.live, PooledOf(g.list, g.zone));
        return E_UPS_LEFT_ONE;
      }
      peer, i := Delete(g, slab, peer, previous, group, i, f, live, before);
      count := count + 1;
      previous, peer := peer, peer.next;
    }
    AllDone(g, group, f);
    ShedAll(live, before, slab.live, PooledOf(g.list, g.zone));
  }

  lemma {:induction false} PartsOfSome(s: seq<Peer>, t: seq<Peer>)
    requires forall p :: p in s ==> p in t
    ensures PartsOf(s) <= PartsOf(t)
  {
    if s != [] {
      PartsOfSome(s[1..], t);
      OneOfMany(s[0], t);
    }
  }

  lemma {:induction false} OneOfMany(p: Peer, t: seq<Peer>)
    requires p in t
    ensures Parts(p) <= PartsOf(t)
  {
    if p != t[0] {
      OneOfMany(p, t[1..]);
    }
  }

  /** The same, seen from outside the group. */
  method DeleteWithin(g: PeerGroup, slab: Slab, name: Option<seq<byte>>, server: Option<seq<byte>>, down: nat)
    returns (count: int)
    requires Tidy(g) && Held(g) == {g} + PooledOf(g.list, g.zone) && Held(g) <= slab.live && Held(g) !! slab.leaked
    requires g !in PartsOf(g.list) && slab !in Reach(g)
    modifies slab`live, Reach(g)
    ensures Tidy(g) && g.next == old(g.next)
            && GroupOf(g) == DeleteGroup(old(GroupOf(g)), Filter(name, server, Some(down)))
    ensures count == DeleteCode(old(GroupOf(g)), Filter(name, server, Some(down)))
    ensures TradedGroup(g, slab) && Reach(g) <= old(Reach(g)) && forall p :: p in g.list ==> p in old(g.list)
    ensures slab.live <= old(slab.live)
  {
    hide PartsOf, ServersOf, PooledOf, Tidy, GroupOf, DeleteGroup, DeleteCode;
    ghost var list := g.list;
    count := DeletePeers(g, slab, name, server, down);
    PartsOfSome(g.list, list);
  }

  // ----- All upstreams

  /** One upstream in the loop over all of them. */
  method DeleteIn(reg: UpstreamTable, ghost k: nat, backup: bool, g: PeerGroup, name: Option<seq<byte>>,
        server: Option<seq<byte>>, down: nat)
    returns (count: int)
    requires reg.Valid() && k < |reg.ups| && g == TargetOf(reg.ups[k], backup) && reg.ups[k].zone >= 0
    modifies reg.slab`live, Reach(g)
    ensures reg.Valid() && reg.repr == old(reg.repr) && reg.slab.answers == old(reg.slab.answers)
    ensures reg.slab.leaked == old(reg.slab.leaked) && reg.slab.live <= old(reg.slab.live)
    ensures count == DeleteCode(old(GroupOf(g)), Filter(name, server, Some(down)))
    ensures var group := DeleteGroup(old(GroupOf(g)), Filter(name, server, Some(down)));
            reg.State() == old(reg.State())[k := SetTarget(old(UpstreamOf(reg.ups[k])), backup, group)]
  {
    hide PartsOf, Parts, Pooled, ServersOf, PooledOf, AllApart, Linked, Complete, Tidy, Good, GroupOf, DeleteGroup,
      DeleteCode, LeftOne, Without, ReachUp, HeldUp, TidyUp, UpstreamOf;
    RegistryAllocated(reg);
    Ready(reg, k, backup, g);
    OnlyPeers(g);
    OthersAway(reg, k, Reach(g));
    count := DeleteWithin(g, reg.slab, name, server, down);
    TargetChanged(reg.ups[k], backup, g, reg.slab);
    OneChanged(reg, k);
    OneStateChanged(reg, k);
  }

  lemma DeleteFromStep(ups: seq<Upstream>, i: nat, upsname: seq<byte>, backup: bool, f: Filter, count: int,
        answers: seq<bool>)
    ensures i >= |ups| ==> DeleteFrom(ups, i, upsname, backup, f, count, answers) == Reply(ups, count, answers)
    ensures i < |ups| && (!Selects(ups[i], upsname) || Target(ups[i], backup).None?) ==>
              DeleteFrom(ups, i, upsname, backup, f, count, answers)
              == DeleteFrom(ups, i + 1, upsname, backup, f, count, answers)
    ensures i < |ups| && Selects(ups[i], upsname) && Target(ups[i], backup).Some? ==>
              var g := Target(ups[i], backup).value;
              var ups', code := ups[i := SetTarget(ups[i], backup, DeleteGroup(g, f))], DeleteCode(g, f);
              DeleteFrom(ups, i, upsname, backup, f, count, answers)
              == if code < 0 then Reply(ups', code, answers)
                 else DeleteFrom(ups', i + 1, upsname, backup, f, count + code, answers)
  {
    if i < |ups| && Target(ups[i], backup).Some? {
      CodeSign(Target(ups[i], backup).value, f);
      assert ups[i := SetTarget(ups[i], backup, Target(ups[i], backup).value)] == ups;
    }
  }

  /** The body of the loop over the upstreams: the group that is asked for, if the upstream has the name and a zone. */
  method DeleteFromOne(reg: UpstreamTable, i: nat, upsname: seq<byte>, backup: bool, name: Option<seq<byte>>,
        server: Option<seq<byte>>, down: nat, ghost count: int)
    returns (deleted: int)
    requires reg.Valid() && i < |reg.ups|
    modifies reg.repr
    ensures reg.Valid() && reg.repr == old(reg.repr) && reg.slab.answers == old(reg.slab.answers)
    ensures reg.slab.leaked == old(reg.slab.leaked) && reg.slab.live <= old(reg.slab.live)
    ensures var f, answers := Filter(name, server, Some(down)), old(reg.slab.answers);
            DeleteFrom(old(reg.State()), i, upsname, backup, f, count, answers)
            == if deleted < 0 then Reply(reg.State(), deleted, answers)
               else DeleteFrom(reg.State(), i + 1, upsname, backup, f, count + deleted, answers)
  {
    hide DeleteFrom, DeleteCode, DeleteGroup, UpstreamOf, GroupOf, Inside, TidyUp, ReachUp, HeldUp, Reach,
      UpstreamTable.Within, UpstreamTable.Covered, UpstreamTable.AllTidy, UpstreamTable.Separate,
      UpstreamTable.Balanced, UpstreamTable.State, Selects, Target, SetTarget;
    DeleteFromStep(reg.State(), i, upsname, backup, Filter(name, server, Some(down)), count, reg.slab.answers);
    Reading(reg, i, upsname, backup);
    var peers := reg.ups[i];
    if peers.name != upsname || peers.zone < 0 {
      return 0;
    }
    if backup {
      if peers.next == null {
        return 0;
      }
      peers := peers.next;
    }
    Ready(reg, i, backup, peers);
    TargetState(reg, i, backup, peers);
    deleted := DeleteIn(reg, i, backup, peers, name, server, down);
  }

  /** hdel_peer and sdel_peer. */
  method DeleteServers(reg: UpstreamTable, upsname: seq<byte>, backup: bool, name: Option<seq<byte>>,
        server: Option<seq<byte>>, down: nat)
    returns (count: int)
    requires reg.Valid()
    modifies reg.repr
    ensures reg.Valid() && reg.repr == old(reg.repr) && reg.slab.answers == old(reg.slab.answers)
    ensures reg.slab.leaked == old(reg.slab.leaked) && reg.slab.live <= old(reg.slab.live)
    ensures Reply(reg.State(), count, reg.slab.answers)
            == if !reg.configured then Reply(old(reg.State()), E_NO_UPS, old(reg.slab.answers))
               else DeleteFrom(old(reg.State()), 0, upsname, backup, Filter(name, server, Some(down)), 0,
                 old(reg.slab.answers))
  {
    hide DeleteFrom, UpstreamTable.Within, UpstreamTable.Covered, UpstreamTable.AllTidy, UpstreamTable.Separate,
      UpstreamTable.Balanced, UpstreamTable.State;
    if !reg.configured {
      return E_NO_UPS;
    }
    ghost var f := Filter(name, server, Some(down));
    count := 0;
    var i := 0;
    while i < |reg.ups|
      invariant i <= |reg.ups| && reg.Valid() && reg.repr == old(reg.repr) && reg.slab.answers == old(reg.slab.answers)
      invariant reg.slab.leaked == old(reg.slab.leaked) && reg.slab.live <= old(reg.slab.live)
      invariant DeleteFrom(reg.State(), i, upsname, backup, f, count, reg.slab.answers)
                == DeleteFrom(old(reg.State()), 0, upsname, backup, f, 0, old(reg.slab.answers))
    {
      var deleted := DeleteFromOne(reg, i, upsname, backup, name, server, down, count);
      if deleted < 0 {
        return deleted;
      }
      count := count + deleted;
      i := i + 1;
    }
    DeleteFromStep(reg.State(), i, upsname, backup, f, count, reg.slab.answers);
  }
}
