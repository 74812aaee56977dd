/**
  add_upstream, del_upstream and mdf_upstream: the entries of a request one
  after the other, and the counters that are reported. The three functions have
  the same loops, so that they are one method here.
 */
module Requests {
  import opened Bytes
  import opened Upstreams
  import opened Peers
  import opened Registry
  import opened Removing
  import opened Editing
  import opened Adding

  /** The upstreams of both protocols. They have no memory in common. */
  class Service {
    const http: UpstreamTable
    const stream: UpstreamTable

    constructor (http: UpstreamTable, stream: UpstreamTable)
      ensures this.http == http && this.stream == stream
    {
      this.http, this.stream := http, stream;
    }

    ghost predicate Valid()
      reads http, http.repr, stream, stream.repr
    {
      http.Valid() && stream.Valid() && ({http} + http.repr) !! ({stream} + stream.repr)
    }

    ghost function Value(): State
      requires Valid()
      reads http, http.repr, stream, stream.repr
    {
      State(TableOf(http), TableOf(stream))
    }

    ghost function Memory(): Zones
      reads http, http.slab, stream, stream.slab
    {
      Zones(BlocksOf(http), BlocksOf(stream))
    }
  }

  ghost function TableOf(reg: UpstreamTable): Table
    requires reg.Within()
    reads reg, reg.repr
  {
    Table(reg.configured, reg.State(), reg.slab.answers)
  }

  /** The blocks of a zone: those that are allocated, and those of them that nothing can free any more. */
  datatype Blocks = Blocks(live: set<object>, leaked: set<object>)

  datatype Zones = Zones(http: Blocks, stream: Blocks)

  ghost function BlocksOf(reg: UpstreamTable): Blocks
    reads reg, reg.slab
  {
    Blocks(reg.slab.live, reg.slab.leaked)
  }

  /** What a call makes of the blocks of a zone: an add allocates, a delete frees, and an edit does neither. Nothing is
      leaked unless an allocation fails. */
  ghost predicate Trades(verb: Verb, a: Blocks, b: Blocks, code: int) {
    match verb
    case Add => a.live <= b.live && Leaks(a.leaked, b.leaked, code)
    case Delete => b.live <= a.live && b.leaked == a.leaked
    case Edit => b == a
  }

  /** One entry of a request, at the upstreams of one protocol. */
  method PerformAt(reg: UpstreamTable, verb: Verb, upsname: seq<byte>, e: Entry) returns (code: int)
    requires reg.Valid()
    modifies reg, reg.repr
    ensures reg.Valid() && fresh(reg.repr - old(reg.repr))
    ensures Reply(reg.State(), code, reg.slab.answers) == Perform(old(TableOf(reg)), verb, upsname, e)
    ensures TableOf(reg) == After(old(TableOf(reg)), Perform(old(TableOf(reg)), verb, upsname, e))
    ensures Trades(verb, old(BlocksOf(reg)), BlocksOf(reg), code) && fresh(reg.slab.leaked - old(reg.slab.leaked))
  {
    hide UpstreamTable.Within, UpstreamTable.Covered, UpstreamTable.AllTidy, UpstreamTable.Separate,
      UpstreamTable.Balanced, UpstreamTable.State, AddFrom, DeleteFrom, EditFrom;
    match verb
    case Add =>
      if e.server.None? {
        return 0;
      }
      code := InsertServers(reg, upsname, e.backup, e.addresses, NewServer(e));
    case Delete =>
      if e.server.None? && e.srvname.None? {
        return 0;
      }
      code := DeleteServers(reg, upsname, e.backup, e.srvname, e.server, Flag(e.down == Some(true)));
    case Edit =>
      if e.server.None? && e.srvname.None? {
        return 0;
      }
      code := EditServers(reg, upsname, e.backup, e.srvname, e.server, EntryChange(e));
  }

  /** The same for calls in both zones: at most three blocks are leaked for each call that failed. */
  ghost predicate Turnover(verb: Verb, a: Zones, b: Zones, failures: int) {
    match verb
    case Add =>
      && a.http.live <= b.http.live && a.http.leaked <= b.http.leaked
      && a.stream.live <= b.stream.live && a.stream.leaked <= b.stream.leaked
      && |b.http.leaked - a.http.leaked| + |b.stream.leaked - a.stream.leaked| <= 3 * failures
    case Delete =>
      && b.http.live <= a.http.live && b.http.leaked == a.http.leaked
      && b.stream.live <= a.stream.live && b.stream.leaked == a.stream.leaked
    case Edit => b == a
  }

  lemma TurnoverComposes(verb: Verb, a: Zones, b: Zones, c: Zones, m: int, n: int)
    requires Turnover(verb, a, b, m) && Turnover(verb, b, c, n)
    ensures Turnover(verb, a, c, m + n)
  {
    if verb.Add? {
      assert c.http.leaked - a.http.leaked == (c.http.leaked - b.http.leaked) + (b.http.leaked - a.http.leaked);
      assert c.stream.leaked - a.stream.leaked
          == (c.stream.leaked - b.stream.leaked) + (b.stream.leaked - a.stream.leaked);
    }
  }

  lemma TurnoverOnce(verb: Verb, a: Blocks, b: Blocks, other: Blocks, code: int)
    requires Trades(verb, a, b, code)
    ensures Turnover(verb, Zones(a, other), Zones(b, other), if code > 0 then 0 else 1)
    ensures Turnover(verb, Zones(other, a), Zones(other, b), if code > 0 then 0 else 1)
  {
    assert other.leaked - other.leaked == {} && (a.leaked == b.leaked ==> b.leaked - a.leaked == {});
  }

  lemma NoTurnover(verb: Verb, a: Zones, failures: nat)
    ensures Turnover(verb, a, a, failures)
  {
    assert a.http.leaked - a.http.leaked == {} && a.stream.leaked - a.stream.leaked == {};
  }

  lemma SlabInside(reg: UpstreamTable)
    requires reg.Valid()
    ensures reg.slab in reg.repr
  {
  }

  method PerformEntry(svc: Service, verb: Verb, protocol: Protocol, upsname: seq<byte>, e: Entry, ghost tally: Tally)
    returns (code: int)
    requires svc.Valid()
    modifies svc.http, svc.http.repr, svc.stream, svc.stream.repr
    ensures svc.Valid() && fresh(svc.http.repr - old(svc.http.repr)) && fresh(svc.stream.repr - old(svc.stream.repr))
    ensures Served(svc.Value(), Count(tally, code))
            == ServeEntry(Served(old(svc.Value()), tally), verb, protocol, upsname, e)
    ensures Turnover(verb, old(svc.Memory()), svc.Memory(), if code > 0 then 0 else 1)
    ensures fresh(svc.http.slab.leaked - old(svc.http.slab.leaked))
            && fresh(svc.stream.slab.leaked - old(svc.stream.slab.leaked))
  {
    hide Leaks, Turnover, Trades, Perform, Count, UpstreamTable.Within, UpstreamTable.Covered, UpstreamTable.AllTidy,
      UpstreamTable.Separate, UpstreamTable.Balanced, UpstreamTable.State;
    SlabInside(svc.http);
    SlabInside(svc.stream);
    ghost var memory := svc.Memory();
    if protocol.Http? {
      code := PerformAt(svc.http, verb, upsname, e);
      TurnoverOnce(verb, memory.http, BlocksOf(svc.http), memory.stream, code);
    } else {
      code := PerformAt(svc.stream, verb, upsname, e);
      TurnoverOnce(verb, memory.stream, BlocksOf(svc.stream), memory.http, code);
    }
  }

  /** The inner loop, over the entries of one section. */
  method ServePeers(svc: Service, verb: Verb, protocol: Protocol, upsname: seq<byte>, peers: seq<Entry>, success0: int,
        failed0: int)
    returns (success: int, failed: int)
    requires svc.Valid()
    modifies svc.http, svc.http.repr, svc.stream, svc.stream.repr
    ensures svc.Valid() && fresh(svc.http.repr - old(svc.http.repr)) && fresh(svc.stream.repr - old(svc.stream.repr))
    ensures Served(svc.Value(), Tally(success, failed))
            == ServeEntries(Served(old(svc.Value()), Tally(success0, failed0)), verb, protocol, upsname, peers)
    ensures Turnover(verb, old(svc.Memory()), svc.Memory(), failed - failed0)
    ensures fresh(svc.http.slab.leaked - old(svc.http.slab.leaked))
            && fresh(svc.stream.slab.leaked - old(svc.stream.slab.leaked))
  {
    hide ServeEntry, Service.Valid, Service.Value, Service.Memory, Turnover;
    NoTurnover(verb, svc.Memory(), 0);
    success, failed := success0, failed0;
    assert peers[0..] == peers;
    for j := 0 to |peers|
      invariant svc.Valid() && fresh(svc.http.repr - old(svc.http.repr))
                && fresh(svc.stream.repr - old(svc.stream.repr))
      invariant ServeEntries(Served(svc.Value(), Tally(success, failed)), verb, protocol, upsname, peers[j..])
                == ServeEntries(Served(old(svc.Value()), Tally(success0, failed0)), verb, protocol, upsname, peers)
      invariant Turnover(verb, old(svc.Memory()), svc.Memory(), failed - failed0)
      invariant fresh(svc.http.slab.leaked - old(svc.http.slab.leaked))
                && fresh(svc.stream.slab.leaked - old(svc.stream.slab.leaked))
    {
      ghost var memory := svc.Memory();
      var ret := PerformEntry(svc, verb, protocol, upsname, peers[j], Tally(success, failed));
      TurnoverComposes(verb, old(svc.Memory()), memory, svc.Memory(), failed - failed0, if ret > 0 then 0 else 1);
      if ret > 0 {
        success := success + ret;
      } else {
        failed := failed + 1;
      }
      assert peers[j..][1..] == peers[j + 1..];
    }
  }

  /** add_upstream, del_upstream and mdf_upstream, with the counters of the reply. */
  method ServeRequest(svc: Service, verb: Verb, parms: seq<Section>) returns (success: int, failed: int)
    requires svc.Valid()
    modifies svc.http, svc.http.repr, svc.stream, svc.stream.repr
    ensures svc.Valid() && fresh(svc.http.repr - old(svc.http.repr)) && fresh(svc.stream.repr - old(svc.stream.repr))
    ensures Served(svc.Value(), Tally(success, failed)) == Serve(old(svc.Value()), Request(verb, parms))
    ensures Turnover(verb, old(svc.Memory()), svc.Memory(), failed)
    ensures fresh(svc.http.slab.leaked - old(svc.http.slab.leaked))
            && fresh(svc.stream.slab.leaked - old(svc.stream.slab.leaked))
  {
    hide ServeEntries, Service.Valid, Service.Value, Service.Memory, Turnover;
    success, failed := 0, 0;
    NoTurnover(verb, svc.Memory(), 0);
    assert parms[0..] == parms;
    for i := 0 to |parms|
      invariant svc.Valid() && fresh(svc.http.repr - old(svc.http.repr))
                && fresh(svc.stream.repr - old(svc.stream.repr))
      invariant ServeSections(Served(svc.Value(), Tally(success, failed)), verb, parms[i..])
                == Serve(old(svc.Value()), Request(verb, parms))
      invariant Turnover(verb, old(svc.Memory()), svc.Memory(), failed)
      invariant fresh(svc.http.slab.leaked - old(svc.http.slab.leaked))
                && fresh(svc.stream.slab.leaked - old(svc.stream.slab.leaked))
    {
      ghost var memory, failed0 := svc.Memory(), failed;
      assert parms[i..][1..] == parms[i + 1..];
      var section := parms[i];
      if section.protocol.None? || section.upsname.None? || section.peers.None? {
        failed := failed + 1;
        NoTurnover(verb, memory, 1);
        TurnoverComposes(verb, old(svc.Memory()), memory, memory, failed0, 1);
        continue;
      }
      success, failed := ServePeers(svc, verb, section.protocol.value, section.upsname.value, section.peers.value,
        success, failed);
      TurnoverComposes(verb, old(svc.Memory()), memory, svc.Memory(), failed0, failed - failed0);
    }
  }
}
