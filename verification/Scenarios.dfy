/**
  Sequences of calls on the code: on any table that has the form they need, and on a small one.
 */
module Scenarios {
  import opened Bytes
  import opened Upstreams
  import opened RegistryLaws
  import opened Reports
  import opened RequestLaws
  import opened Peers
  import opened Registry
  import opened Requests

  // ----- Calls on a table

  /** The upstreams that the call selects have other servers only. */
  ghost predicate AllOthersOnly(ups: seq<Upstream>, upsname: seq<byte>, d: Entry) {
    forall j :: 0 <= j < |ups| && Named(ups[j], upsname) ==> OthersOnly(ups[j], d)
  }

  /** The upstreams are as they were, but for flags `single` that have been put right. */
  ghost predicate AsBefore(before: seq<Upstream>, after: seq<Upstream>, backup: bool) {
    && |after| == |before|
    && forall j :: 0 <= j < |before| ==>
         after[j] == before[j] || (Target(before[j], backup).Some? && after[j] == Restored(before[j], backup))
  }

  /** The law for the calls of a table. */
  lemma CallsRestore(reg: UpstreamTable, upsname: seq<byte>, e: Entry, d: Entry)
    requires reg.Valid() && reg.configured && e.server.Some? && Undoes(d, e)
    requires AllOthersOnly(reg.State(), upsname, d)
    ensures var t := TableOf(reg);
            var r1 := Perform(t, Add, upsname, e);
            var r2 := Perform(After(t, r1), Delete, upsname, d);
            var r3 := Perform(After(t, r2), Delete, upsname, d);
            && AsBefore(t.ups, r3.ups, e.backup)
            && (r1.code >= 0 ==> Gain(r2.code) + Gain(r3.code) == r1.code)
  {
    hide UpstreamTable.Within, UpstreamTable.Covered, UpstreamTable.AllTidy, UpstreamTable.Separate;
    hide UpstreamTable.Balanced, UpstreamTable.State, Perform, OthersOnly, Restored, GoodUps, Population;
    ValidIsGood(reg);
    AddDeleteDelete(TableOf(reg), upsname, e, d);
  }

  /** A server text is added and deleted twice, by its text or its address, on any table whose selected upstreams have
      other servers only and with any answers of the allocator. */
  method AddAndDeleteTwice(reg: UpstreamTable, upsname: seq<byte>, e: Entry, d: Entry)
    returns (added: int, first: int, second: int)
    requires reg.Valid() && reg.configured && e.server.Some? && Undoes(d, e)
    requires AllOthersOnly(reg.State(), upsname, d)
    modifies reg, reg.repr
    ensures reg.Valid() && fresh(reg.repr - old(reg.repr)) && AsBefore(old(reg.State()), reg.State(), e.backup)
    ensures added == Perform(old(TableOf(reg)), Add, upsname, e).code
    ensures added >= 0 ==> Gain(first) + Gain(second) == added
    ensures Leaks(old(reg.slab.leaked), reg.slab.leaked, added)
  {
    hide UpstreamTable.Within, UpstreamTable.Covered, UpstreamTable.AllTidy, UpstreamTable.Separate;
    hide UpstreamTable.Balanced, UpstreamTable.State, Perform, OthersOnly, Restored, AsBefore, AllOthersOnly;
    CallsRestore(reg, upsname, e, d);
    added := PerformAt(reg, Add, upsname, e);
    first := PerformAt(reg, Delete, upsname, d);
    second := PerformAt(reg, Delete, upsname, d);
  }

  lemma EmptyGroup(g: PeerGroup)
    requires g.list == [] && g.peer == null && g.next == null && g.number == 0 && g.totalWeight == 0 && !g.single
    requires g.zone >= 0
    ensures TidyUp(g) && UpstreamOf(g) == Upstream(g.name, true, EMPTY, None) && ReachUp(g) == HeldUp(g) == {g}
  {
    assert GroupOf(g) == EMPTY;
  }

  lemma SmallTableIsValid(reg: UpstreamTable, g: PeerGroup)
    requires reg.ups == [g] && reg.repr == {reg.slab, g} && reg.slab.live == {g} && reg.slab.leaked == {}
    requires g.list == [] && g.peer == null && g.next == null && g.number == 0 && g.totalWeight == 0 && !g.single
    requires g.zone >= 0
    ensures reg.Valid() && reg.State() == [Upstream(g.name, true, EMPTY, None)]
  {
    hide TidyUp, UpstreamOf, ReachUp, HeldUp;
    EmptyGroup(g);
    assert reg.ups[0] == g && g in reg.AllHeld();
  }

  /** A table with one upstream that has a zone and no servers. */
  method SmallTable(name: seq<byte>, answers: seq<bool>) returns (reg: UpstreamTable)
    ensures fresh(reg) && fresh(reg.repr) && reg.Valid() && reg.configured && reg.slab.answers == answers
    ensures reg.State() == [Upstream(name, true, EMPTY, None)]
  {
    var slab := new Slab([true] + answers);
    var g := slab.AllocGroup(name, 0);
    assert ([true] + answers)[1..] == answers;
    reg := new UpstreamTable(true, [g], slab, {slab, g});
    SmallTableIsValid(reg, g);
  }

  /** An entry that adds or deletes a server text as it is resolved to some addresses. */
  function EntryOf(server: seq<byte>, addresses: seq<Address>): Entry {
    Entry(Some(server), None, Some(addresses), 0, 0, 0, 0, None, false)
  }

  lemma GrantedClaim(answers: seq<bool>)
    requires |answers| >= 4 && forall i :: 0 <= i < |answers| ==> answers[i]
    ensures ClaimPeer(answers) == Claim(0, answers[4..])
  {
    assert answers[1..][1..] == answers[2..] && answers[2..][1..] == answers[3..] && answers[3..][1..] == answers[4..];
  }

  /** An add of one address to the empty upstream. */
  lemma FirstServer(n: seq<byte>, server: seq<byte>, answers: seq<bool>)
    requires |answers| >= 4 && forall i :: 0 <= i < |answers| ==> answers[i]
    ensures var e := EntryOf(server, [Address(n)]); var p := NewServer(e).(name := n);
            Perform(Table(true, [Upstream(n, true, EMPTY, None)], answers), Add, n, e)
            == Reply([Upstream(n, true, Group([p], 1, 1, true), None)], 1, answers[4..])
  {
    var e := EntryOf(server, [Address(n)]);
    var p, ups := NewServer(e), [Upstream(n, true, EMPTY, None)];
    GrantedClaim(answers);
    var g := Prepend(EMPTY, p.(name := n));
    assert g == Group([p.(name := n)], 1, 1, true);
    assert AddServers(g, [], p, answers[4..], 1) == Added(g, 1, answers[4..]);
    assert AddServers(EMPTY, [Address(n)], p, answers, 0) == Added(g, 1, answers[4..]);
    var ups' := ups[0 := SetTarget(ups[0], false, g)];
    assert AddFrom(ups', 1, n, false, [Address(n)], p, 1, answers[4..]) == Reply(ups', 1, answers[4..]);
  }

  /** And one of two addresses to any upstream. */
  lemma TwoServers(t: Table, n: seq<byte>, g: Group, server: seq<byte>, a: Address, b: Address)
    requires t.configured && t.ups == [Upstream(n, true, g, None)] && t.answers == seq(8, i => true)
    ensures Perform(t, Add, n, EntryOf(server, [a, b])).code == 2
  {
    hide AddServers, Prepend;
    var p := NewServer(EntryOf(server, [a, b]));
    assert [a, b][1..] == [b] && [b][1..] == [] && t.answers[4..][4..] == t.answers[8..];
    var c1 := Prepend(g, p.(name := a.name));
    GrantedClaim(t.answers);
    GrantedClaim(t.answers[4..]);
    OneAddress(g, [a, b], p, t.answers, 0);
    OneAddress(c1, [b], p, t.answers[4..], 1);
    var c2 := Prepend(c1, p.(name := b.name));
    OneAddress(c2, [], p, t.answers[8..], 2);
    var ups' := t.ups[0 := SetTarget(t.ups[0], false, c2)];
    assert AddServers(g, [a, b], p, t.answers, 0) == Added(c2, 2, t.answers[8..]);
    assert AddFrom(ups', 1, n, false, [a, b], p, 2, t.answers[8..]).code == 2;
  }

  lemma OneAddress(g: Group, addresses: seq<Address>, p: Server, answers: seq<bool>, count: int)
    ensures addresses == [] ==> AddServers(g, addresses, p, answers, count) == Added(g, count, answers)
    ensures addresses != [] && ClaimPeer(answers).code == 0 ==>
              AddServers(g, addresses, p, answers, count)
              == AddServers(Prepend(g, p.(name := addresses[0].name)), addresses[1..], p, ClaimPeer(answers).answers,
                            count + 1)
  {
  }

  lemma OtherServer(ups: seq<Upstream>, n: seq<byte>, p: Server, e: Entry)
    requires ups == [Upstream(n, true, Group([p], 1, 1, true), None)] && !e.backup
    requires e.server.Some? && e.server.value != p.server
    ensures AllOthersOnly(ups, n, e) && Restored(ups[0], false) == ups[0]
  {
    assert !Doomed(e, p);
  }

  /** A server, and another one with two addresses, which is deleted again. */
  method SmallScenario(n: seq<byte>, x: seq<byte>, m: seq<byte>)
    returns (reg: UpstreamTable, added: int, first: int, second: int)
    requires x != m
    ensures fresh(reg) && fresh(reg.repr) && reg.Valid()
    ensures var p := NewServer(EntryOf(x, [Address(n)])).(name := n);
            reg.State() == [Upstream(n, true, Group([p], 1, 1, true), None)]
    ensures added == 2 && Gain(first) + Gain(second) == 2
  {
    hide UpstreamTable.Within, UpstreamTable.Covered, UpstreamTable.AllTidy, UpstreamTable.Separate;
    hide UpstreamTable.Balanced, UpstreamTable.State, Perform, Trades, Leaks;
    var answers := seq(12, i => true);
    reg := SmallTable(n, answers);
    FirstServer(n, x, answers);
    var one := PerformAt(reg, Add, n, EntryOf(x, [Address(n)]));
    ghost var p := NewServer(EntryOf(x, [Address(n)])).(name := n);
    assert answers[4..] == seq(8, i => true);
    TwoServers(TableOf(reg), n, Group([p], 1, 1, true), m, Address(x), Address(m));
    var e := EntryOf(m, [Address(x), Address(m)]);
    OtherServer(reg.State(), n, p, e);
    added, first, second := AddAndDeleteTwice(reg, n, e, e);
  }
}
