/**
  The C structures of the registry: peers linked by `next` below a group with
  cached fields, an optional backup group behind `next`, and the slab allocator
  of the shared memory zones.
 */
module Peers {
  import opened Bytes
  import opened Sequences
  import opened Upstreams

  /** A block of bytes. `zone` is the shared memory zone it lies in, negative for none. */
  class Chunk {
    const data: seq<byte>
    const zone: int

    constructor (data: seq<byte>, zone: int)
      ensures this.data == data && this.zone == zone
    {
      this.data, this.zone := data, zone;
    }
  }

  class Peer {
    var next: Peer?
    var sockaddr: Chunk?
    var name: Chunk?
    var server: Chunk?
    var weight: int
    var maxConns: int
    var maxFails: int
    var failTimeout: int
    var down: nat
    var running: Running

    constructor ()
      ensures next == null && sockaddr == null && name == null && server == null && running == Idle(0)
    {
      next, sockaddr, name, server := null, null, null, null;
      weight, maxConns, maxFails, failTimeout, down, running := 0, 0, 0, 0, 0, Idle(0);
    }
  }

  /** A group of peers. `zone` is that of its slab pool, negative for none. */
  class PeerGroup {
    const name: seq<byte>
    const zone: int
    var number: int
    var totalWeight: int
    var single: bool
    var peer: Peer?
    var next: PeerGroup?
    ghost var list: seq<Peer>

    constructor (name: seq<byte>, zone: int)
      ensures this.name == name && this.zone == zone && number == 0 && totalWeight == 0 && !single
      ensures peer == null && next == null && list == []
    {
      this.name, this.zone, number, totalWeight, single := name, zone, 0, 0, false;
      peer, next, list := null, null, [];
    }
  }

  /** The slab allocator: the blocks handed out and not yet freed. It answers requests as `answers` says. Blocks
      that were allocated for a peer that could not be completed are `leaked`. */
  class Slab {
    var live: set<object>
    var answers: seq<bool>
    ghost var leaked: set<object>

    constructor (answers: seq<bool>)
      ensures live == {} && leaked == {} && this.answers == answers
    {
      live, leaked, this.answers := {}, {}, answers;
    }

    method Answer() returns (yes: bool)
      modifies this`answers
      ensures yes == Granted(old(answers)) && answers == Later(old(answers))
    {
      yes := Granted(answers);
      answers := Later(answers);
    }

    method AllocPeer() returns (p: Peer?)
      modifies this`answers, this`live
      ensures answers == Later(old(answers))
      ensures if Granted(old(answers)) then
                p != null && fresh(p) && p.next == null && p.sockaddr == null && p.name == null && p.server == null
                && p.running == Idle(0)
                && live == old(live) + {p}
              else p == null && live == old(live)
    {
      p := null;
      var yes := Answer();
      if yes {
        p := new Peer();
        live := live + {p};
      }
    }

    /** ngx_slab_alloc, and filling the block. */
    method Store(data: seq<byte>, zone: int) returns (c: Chunk?)
      modifies this`answers, this`live
      ensures answers == Later(old(answers))
      ensures if Granted(old(answers)) then
                c != null && fresh(c) && c.data == data && c.zone == zone && live == old(live) + {c}
              else c == null && live == old(live)
    {
      c := null;
      var yes := Answer();
      if yes {
        c := new Chunk(data, zone);
        live := live + {c};
      }
    }

    method AllocGroup(name: seq<byte>, zone: int) returns (g: PeerGroup?)
      modifies this`answers, this`live
      ensures answers == Later(old(answers))
      ensures if Granted(old(answers)) then
                && g != null && fresh(g) && g.name == name && g.zone == zone && g.next == null
                && g.number == 0 && g.totalWeight == 0 && !g.single && g.peer == null && g.list == []
                && live == old(live) + {g}
              else g == null && live == old(live)
    {
      g := null;
      var yes := Answer();
      if yes {
        g := new PeerGroup(name, zone);
        live := live + {g};
      }
    }

    /** ngx_slab_free: the block must be live, so no block is freed twice. */
    method Free(o: object)
      requires o in live
      modifies this`live
      ensures live == old(live) - {o}
    {
      live := live - {o};
    }

    /** A peer that could not be completed, and the blocks that have been allocated for it. They are still allocated,
        but nothing refers to them any more. */
    ghost method Lose(s: set<object>)
      modifies this`leaked
      ensures leaked == old(leaked) + s
    {
      leaked := leaked + s;
    }
  }

  /** What a call that returns `code` leaks: a few blocks if an allocation for a peer failed behind the first one,
      and nothing otherwise. */
  ghost predicate Leaks(before: set<object>, after: set<object>, code: int) {
    before <= after && if code == E_SLAB_ALLOC then 1 <= |after - before| <= 3 else after == before
  }

  lemma LeaksNothing(before: set<object>, after: set<object>, code: int)
    requires code != E_SLAB_ALLOC
    ensures Leaks(before, after, code) <==> after == before
  {
  }

  // ----- Values

  function Data(c: Chunk?): seq<byte> {
    if c == null then [] else c.data
  }

  ghost function ServerOf(p: Peer): Server
    reads p`name, p`server, p`weight, p`maxConns, p`maxFails, p`failTimeout, p`down, p`running
  {
    Server(Data(p.name), Data(p.server), p.weight, p.maxConns, p.maxFails, p.failTimeout, p.down, p.running)
  }

  ghost function ServersOf(s: seq<Peer>): (r: seq<Server>)
    reads s`name, s`server, s`weight, s`maxConns, s`maxFails, s`failTimeout, s`down, s`running
    ensures |r| == |s| && forall i :: 0 <= i < |s| ==> r[i] == ServerOf(s[i])
  {
    if s == [] then [] else [ServerOf(s[0])] + ServersOf(s[1..])
  }

  ghost function GroupOf(g: PeerGroup): Group
    reads g`list, g`number, g`totalWeight, g`single
    reads g.list`name, g.list`server, g.list`weight, g.list`maxConns, g.list`maxFails, g.list`failTimeout, g.list`down
    reads g.list`running
  {
    Group(ServersOf(g.list), g.number, g.totalWeight, g.single)
  }

  /** Where a name or a server text is given, it is the peer's. */
  predicate Chosen(p: Peer, name: Option<seq<byte>>, server: Option<seq<byte>>)
    reads p`name, p`server
  {
    (name.Some? ==> name.value == Data(p.name)) && (server.Some? ==> server.value == Data(p.server))
  }

  // ----- Structure

  ghost function PeerAt(s: seq<Peer>, i: int): Peer? {
    if 0 <= i < |s| then s[i] else null
  }

  /** From the head along `next` through the list to the end. */
  ghost predicate Linked(s: seq<Peer>, head: Peer?)
    reads s`next
  {
    head == PeerAt(s, 0) && forall i {:trigger s[i].next} :: 0 <= i < |s| ==> s[i].next == PeerAt(s, i + 1)
  }

  ghost function Block(c: Chunk?): set<object> {
    if c == null then {} else {c}
  }

  /** A peer and its blocks. */
  ghost function Parts(p: Peer): set<object>
    reads p`sockaddr, p`name, p`server
  {
    {p} + Block(p.sockaddr) + Block(p.name) + Block(p.server)
  }

  ghost function PartsOf(s: seq<Peer>): (r: set<object>)
    reads s`sockaddr, s`name, s`server
    ensures forall i :: 0 <= i < |s| ==> s[i] in r
  {
    if s == [] then {} else Parts(s[0]) + PartsOf(s[1..])
  }

  /** A group, its peers and their blocks. */
  ghost function Reach(g: PeerGroup): set<object>
    reads g`list, g.list`sockaddr, g.list`name, g.list`server
  {
    {g} + PartsOf(g.list)
  }

  ghost function InPool(c: Chunk?, zone: int): set<object> {
    if c != null && c.zone == zone then {c} else {}
  }

  /** The blocks of a peer that lie in the zone. The peer itself always does. */
  ghost function Pooled(p: Peer, zone: int): set<object>
    reads p`sockaddr, p`name, p`server
  {
    {p} + InPool(p.sockaddr, zone) + InPool(p.name, zone) + InPool(p.server, zone)
  }

  ghost function PooledOf(s: seq<Peer>, zone: int): (r: set<object>)
    reads s`sockaddr, s`name, s`server
    ensures r <= PartsOf(s)
  {
    if s == [] then {} else Pooled(s[0], zone) + PooledOf(s[1..], zone)
  }

  ghost predicate Complete(p: Peer)
    reads p`sockaddr, p`name, p`server
  {
    && p.sockaddr != null && p.name != null && p.server != null
    && p.sockaddr != p.name && p.sockaddr != p.server && p.name != p.server
  }

  /** All peers are complete, and no two share a block. */
  ghost predicate AllApart(s: seq<Peer>)
    reads s`sockaddr, s`name, s`server
  {
    s == [] || (Complete(s[0]) && Parts(s[0]) !! PartsOf(s[1..]) && AllApart(s[1..]))
  }

  ghost predicate Tidy(g: PeerGroup)
    reads g`list, g`peer, g`number, g`totalWeight, g`single, g.list
  {
    Linked(g.list, g.peer) && AllApart(g.list) && Good(GroupOf(g))
  }

  lemma TidyParts(g: PeerGroup)
    ensures Tidy(g) <==> Linked(g.list, g.peer) && AllApart(g.list) && Good(GroupOf(g))
    ensures GroupOf(g) == Group(ServersOf(g.list), g.number, g.totalWeight, g.single)
  {
  }

  /** Whatever a list mentions has been allocated. */
  lemma {:induction false} PartsAllocated(s: seq<Peer>)
    ensures forall o :: o in PartsOf(s) ==> allocated(o)
  {
    if s != [] {
      PartsAllocated(s[1..]);
    }
  }

  // ----- Taking a peer out

  lemma {:induction false} WithoutBlocks(s: seq<Peer>, i: nat, zone: int)
    requires i < |s|
    ensures PartsOf(s) == PartsOf(Without(s, i)) + Parts(s[i])
    ensures PooledOf(s, zone) == PooledOf(Without(s, i), zone) + Pooled(s[i], zone)
    decreases i
  {
    hide Parts, Pooled;
    if i == 0 {
      assert Without(s, 0) == s[1..];
    } else {
      WithoutBlocks(s[1..], i - 1, zone);
      assert Without(s, i)[1..] == Without(s[1..], i - 1);
    }
  }

  lemma {:induction false} WithoutApart(s: seq<Peer>, i: nat)
    requires i < |s| && AllApart(s)
    ensures AllApart(Without(s, i)) && Complete(s[i]) && Parts(s[i]) !! PartsOf(Without(s, i))
    decreases i
  {
    hide Parts, Complete;
    if i == 0 {
      assert Without(s, 0) == s[1..];
    } else {
      WithoutApart(s[1..], i - 1);
      WithoutBlocks(s[1..], i - 1, 0);
      assert Without(s, i)[1..] == Without(s[1..], i - 1);
    }
  }

  lemma WithoutServers(s: seq<Peer>, i: nat)
    requires i < |s|
    ensures ServersOf(Without(s, i)) == Without(ServersOf(s), i)
  {
  }

  lemma {:induction false} WithoutWeights(s: seq<Server>, i: nat)
    requires i < |s|
    ensures Weights(Without(s, i)) == Weights(s) - s[i].weight
    decreases i
  {
    if i == 0 {
      assert Without(s, 0) == s[1..];
    } else {
      WithoutWeights(s[1..], i - 1);
      assert Without(s, i)[1..] == Without(s[1..], i - 1);
    }
  }

  // ----- A list that ends has no cycle

  lemma {:induction false} NoCycle(s: seq<Peer>, head: Peer?, i: nat, j: nat)
    requires Linked(s, head) && i < j < |s|
    ensures s[i] != s[j]
    decreases |s| - j
  {
    assert s[i].next == PeerAt(s, i + 1) && s[j].next == PeerAt(s, j + 1);
    if j + 1 < |s| {
      NoCycle(s, head, i + 1, j + 1);
    }
  }
}
