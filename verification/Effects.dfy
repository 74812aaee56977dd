/**
  What a call does to the servers of the upstreams, said with the fields of
  its entry alone.
 */
module Effects {
  import opened Bytes
  import opened Upstreams
  import opened UpstreamLaws
  import opened RegistryLaws
  import opened Reports
  import opened RequestLaws
  import Listing

  // ----- Adding

  /** A new server for one address: what the entry gives, with the defaults of nginx for the rest. */
  predicate NewFor(e: Entry, a: Address, x: Server) {
    && x.name == a.name && Some(x.server) == e.server && (x.down != 0 <==> e.down == Some(true)) && x.down <= 1
    && x.weight == (if e.weight > 0 then e.weight else 1) && x.maxConns == (if e.maxConns > 0 then e.maxConns else 0)
    && x.maxFails == (if e.maxFails > 0 then e.maxFails else 1)
    && x.failTimeout == (if e.failTimeout > 0 then e.failTimeout else 10)
    && x.running.effectiveWeight == x.weight && x.running.currentWeight == 0 && x.running.conns == 0
    && x.running.fails == 0 && x.running.slowStart == 0 && x.running.startTime == 0
  }

  lemma NewServerIs(e: Entry, a: Address)
    requires e.server.Some?
    ensures NewFor(e, a, NewServer(e).(name := a.name))
  {
  }

  lemma {:induction false} FromAddressesAt(addresses: seq<Address>, p: Server, i: nat)
    requires i < |addresses|
    ensures FromAddresses(addresses, p)[i] == p.(name := addresses[|addresses| - 1 - i].name)
  {
    if i < |addresses| - 1 {
      FromAddressesAt(addresses[1..], p, i);
    }
  }

  lemma {:induction false} AddsSetSingle(g: Group, addresses: seq<Address>, p: Server, answers: seq<bool>, count: int)
    ensures var r := AddServers(g, addresses, p, answers, count).group;
            r == g || r.single == (r.number == 1)
    decreases |addresses|
  {
    if addresses != [] && ClaimPeer(answers).code == 0 {
      AddsSetSingle(Prepend(g, p.(name := addresses[0].name)), addresses[1..], p, ClaimPeer(answers).answers,
        count + 1);
    }
  }

  /** By how much one list is longer than the other. */
  function Surplus(u: Upstream, v: Upstream, backup: bool): int {
    |ServersAt(v, backup)| - |ServersAt(u, backup)|
  }

  /** A group that has got longer or shorter is marked as `single` if and only if it has one server, and any other group
      as before. */
  predicate Marked(u: Upstream, v: Upstream, backup: bool) {
    if Surplus(u, v, backup) != 0 then
      Target(v, backup).Some? && (Target(v, backup).value.single <==> |ServersAt(v, backup)| == 1)
    else
      Target(u, backup).Some? ==>
        Target(v, backup).Some? && Target(v, backup).value.single == Target(u, backup).value.single
  }

  /** The group of `v` has servers for the first `k` addresses in front of those of `u`. */
  predicate Longer(u: Upstream, v: Upstream, backup: bool, addresses: seq<Address>, p: Server, k: nat) {
    && k <= |addresses| && ServersAt(v, backup) == FromAddresses(addresses[..k], p) + ServersAt(u, backup)
    && Marked(u, v, backup)
  }

  lemma NothingLonger(u: Upstream, backup: bool, addresses: seq<Address>, p: Server)
    ensures Longer(u, u, backup, addresses, p, 0)
  {
    assert addresses[..0] == [] && [] + ServersAt(u, backup) == ServersAt(u, backup);
  }

  lemma GroupLonger(u: Upstream, backup: bool, g: Group, addresses: seq<Address>, p: Server, answers: seq<bool>,
        count: nat)
    requires Good(g) && p.weight >= 1 && g.servers == ServersAt(u, backup)
    requires Target(u, backup).Some? ==> g == Target(u, backup).value
    ensures var r := AddServers(g, addresses, p, answers, count); var v := SetTarget(u, backup, r.group);
            var k := Surplus(u, v, backup);
            && k >= 0 && Longer(u, v, backup, addresses, p, k) && Target(v, backup).Some?
            && (r.code >= 0 ==> k == |addresses| && r.code >= count)
  {
    hide AddServers, Weights, Positive;
    AddServersFacts(g, addresses, p, answers, count);
    AddsSetSingle(g, addresses, p, answers, count);
    NothingAdded(g, addresses, p, answers, count);
  }

  lemma {:induction false} AddFromEffect(ups: seq<Upstream>, i: nat, upsname: seq<byte>, backup: bool,
        addresses: seq<Address>, p: Server, count: nat, answers: seq<bool>)
    requires GoodUps(ups) && p.weight >= 1
    ensures var r := AddFrom(ups, i, upsname, backup, addresses, p, count, answers);
            && |r.ups| == |ups|
            && (forall j :: 0 <= j < |ups| && (j < i || !Named(ups[j], upsname)) ==> r.ups[j] == ups[j])
            && (forall j :: 0 <= j < |ups| ==>
                  var k := Surplus(ups[j], r.ups[j], backup);
                  && k >= 0 && Longer(ups[j], r.ups[j], backup, addresses, p, k)
                  && (i <= j && Named(ups[j], upsname) && r.code >= 0 ==>
                        k == |addresses| && Target(r.ups[j], backup).Some?))
    decreases |ups| - i
  {
    hide AddServers, GoodUpstream, Longer, SetTarget, Target, Surplus;
    forall j | 0 <= j < |ups| ensures Longer(ups[j], ups[j], backup, addresses, p, 0)
      ensures Surplus(ups[j], ups[j], backup) == 0
    {
      NothingLonger(ups[j], backup, addresses, p);
      NoSurplus(ups[j], backup);
    }
    if i < |ups| {
      NamedSelects(ups[i], upsname);
      TargetServers(ups[i], backup);
      var t := Target(ups[i], backup);
      if !Named(ups[i], upsname) {
        AddFromEffect(ups, i + 1, upsname, backup, addresses, p, count, answers);
      } else if t.Some? || Granted(answers) {
        var g, a := if t.None? then EMPTY else t.value, if t.None? then Later(answers) else answers;
        GroupLonger(ups[i], backup, g, addresses, p, a, count);
        AddServersFacts(g, addresses, p, a, count);
        SetKeepsGood(ups, i, backup, AddServers(g, addresses, p, a, count).group);
        var r := AddServers(g, addresses, p, a, count);
        if r.code >= 0 {
          AddFromEffect(ups[i := SetTarget(ups[i], backup, r.group)], i + 1, upsname, backup, addresses, p, r.code,
            r.answers);
        }
      }
    }
  }

  lemma NoSurplus(u: Upstream, backup: bool)
    ensures Surplus(u, u, backup) == 0
  {
  }

  /** The first `k` addresses of the entry have got a server, the last of them in front. */
  predicate Joined(e: Entry, before: seq<Server>, after: seq<Server>, k: nat)
    requires e.addresses.Some?
  {
    && k <= |e.addresses.value| && |after| == |before| + k && after[k..] == before
    && forall i :: 0 <= i < k ==> NewFor(e, e.addresses.value[k - 1 - i], after[i])
  }

  lemma LongerJoined(e: Entry, u: Upstream, v: Upstream, k: nat)
    requires e.server.Some? && e.addresses.Some? && Longer(u, v, e.backup, e.addresses.value, NewServer(e), k)
    ensures Joined(e, ServersAt(u, e.backup), ServersAt(v, e.backup), k)
  {
    hide NewServer, NewFor;
    var a, s := e.addresses.value, ServersAt(v, e.backup);
    forall i | 0 <= i < k ensures NewFor(e, a[k - 1 - i], s[i]) {
      FromAddressesAt(a[..k], NewServer(e), i);
      NewServerIs(e, a[k - 1 - i]);
    }
  }

  /** An add puts a server for each address in front of every upstream with the name and a zone, as the entry says,
      unless the memory does not last: then for some of the first addresses. */
  lemma AddEffect(t: Table, upsname: seq<byte>, e: Entry, j: nat)
    requires t.configured && GoodUps(t.ups) && e.server.Some? && e.addresses.Some? && j < |t.ups|
    ensures var r := Perform(t, Add, upsname, e); var u := t.ups[j];
            && j < |r.ups| && (!Named(u, upsname) ==> r.ups[j] == u)
            && var k := Surplus(u, r.ups[j], e.backup);
            && k >= 0 && Joined(e, ServersAt(u, e.backup), ServersAt(r.ups[j], e.backup), k)
            && (Named(u, upsname) && r.code >= 0 ==>
                  k == |e.addresses.value| && Target(r.ups[j], e.backup).Some?)
            && ServersAt(r.ups[j], !e.backup) == ServersAt(u, !e.backup) && Marked(u, r.ups[j], e.backup)
  {
    hide AddFrom, NewServer, Surplus, Joined;
    NewServerStarts(e);
    AddFromEffect(t.ups, 0, upsname, e.backup, e.addresses.value, NewServer(e), 0, t.answers);
    var v := Perform(t, Add, upsname, e).ups[j];
    LongerJoined(e, t.ups[j], v, Surplus(t.ups[j], v, e.backup));
    PerformReaches(t, Add, upsname, e);
  }

  lemma NewServerStarts(e: Entry)
    requires e.server.Some?
    ensures NewServer(e).weight >= 1
  {
  }

  // ----- Deleting

  function Spared(e: Entry, s: seq<Server>): seq<Server> {
    if s == [] then [] else (if Doomed(e, s[0]) then [] else [s[0]]) + Spared(e, s[1..])
  }

  lemma {:induction false} SparedIsKept(e: Entry, s: seq<Server>)
    ensures Spared(e, s) == Keep(s, EntryFilter(e, true))
  {
    hide Doomed, Matches;
    if s != [] {
      DoomedMatches(e, s[0]);
      SparedIsKept(e, s[1..]);
    }
  }

  /** All doomed servers are gone, but for the second one if the first two were; the others are in their order. */
  predicate Cleared(e: Entry, before: seq<Server>, after: seq<Server>) {
    && Spared(e, after) == Spared(e, before)
    && |after| == |Spared(e, before)|
                  + (if |before| >= 2 && Doomed(e, before[0]) && Doomed(e, before[1]) then 1 else 0)
    && (before != [] ==> after != [])
  }

  /** A group of one server that is doomed. */
  predicate Stuck(e: Entry, s: seq<Server>) {
    |s| == 1 && Doomed(e, s[0])
  }

  lemma GroupCleared(e: Entry, g: Group)
    requires Good(g) && !Stuck(e, g.servers)
    ensures var h := DeleteGroup(g, EntryFilter(e, true));
            && Cleared(e, g.servers, h.servers) && |h.servers| <= |g.servers|
            && (if |h.servers| < |g.servers| then h.single <==> |h.servers| == 1 else h.single == g.single)
  {
    hide Keep, Matching, Doomed, Matches;
    var f, s := EntryFilter(e, true), g.servers;
    forall x ensures Matches(x, f) <==> Doomed(e, x) { DoomedMatches(e, x); }
    DeleteKeepsGood(g, f);
    DeletesSetSingle(g, f);
    DeleteOutcome(s, f);
    var r := Survivors(s, f);
    SparedIsKept(e, s);
    SparedIsKept(e, r);
    KeepFacts(r, f);
  }

  /** A delete takes from every upstream with the name and a zone all servers that the entry is about, except that it
      can leave the second one, and no other server; until it comes to a group of just one such server, where the
      call ends. */
  lemma DeleteEffect(t: Table, upsname: seq<byte>, e: Entry)
    requires t.configured && GoodUps(t.ups) && (e.server.Some? || e.srvname.Some?)
    ensures var r := Perform(t, Delete, upsname, e);
            && |r.ups| == |t.ups|
            && (r.code < 0 <==> exists j :: 0 <= j < |t.ups| && Named(t.ups[j], upsname)
                                            && Stuck(e, ServersAt(t.ups[j], e.backup)))
            && (r.code < 0 ==> r.code == E_UPS_LEFT_ONE)
            && forall j :: 0 <= j < |t.ups| ==>
                 var u, v := t.ups[j], r.ups[j];
                 if Named(u, upsname) && Target(u, e.backup).Some?
                    && forall i :: 0 <= i <= j ==>
                         !(Named(t.ups[i], upsname) && Stuck(e, ServersAt(t.ups[i], e.backup)))
                 then Cleared(e, ServersAt(u, e.backup), ServersAt(v, e.backup))
                      && Marked(u, v, e.backup) && ServersAt(v, !e.backup) == ServersAt(u, !e.backup)
                 else v == u
  {
    hide DeleteFrom, Stop, Pass, Cleared, Stuck, Good, DeleteGroup, EntryFilter, SomeRemoves;
    var f := EntryFilter(e, true);
    DeletePass(t.ups, 0, upsname, e.backup, f, 0, t.answers);
    DeleteFromReports(t.ups, 0, upsname, e.backup, f, 0, t.answers);
    var stop := Stop(t.ups, 0, upsname, e.backup, f);
    forall j | 0 <= j < |t.ups|
      ensures Refuses(t.ups[j], upsname, e.backup, f)
              <==> Named(t.ups[j], upsname) && Stuck(e, ServersAt(t.ups[j], e.backup))
    {
      RefusesStuck(t.ups[j], upsname, e);
    }
    forall j | 0 <= j < stop
      ensures var u := t.ups[j]; var v := Pass(u, upsname, e.backup, f);
              if Named(u, upsname) && Target(u, e.backup).Some?
              then Cleared(e, ServersAt(u, e.backup), ServersAt(v, e.backup))
                   && Marked(u, v, e.backup) && ServersAt(v, !e.backup) == ServersAt(u, !e.backup)
              else v == u
    {
      PassCleared(t.ups[j], upsname, e);
    }
  }

  lemma RefusesStuck(u: Upstream, upsname: seq<byte>, e: Entry)
    ensures Refuses(u, upsname, e.backup, EntryFilter(e, true))
            <==> Named(u, upsname) && Stuck(e, ServersAt(u, e.backup))
  {
    if |ServersAt(u, e.backup)| == 1 {
      DoomedMatches(e, ServersAt(u, e.backup)[0]);
    }
  }

  lemma PassCleared(u: Upstream, upsname: seq<byte>, e: Entry)
    requires GoodUpstream(u) && !(Named(u, upsname) && Stuck(e, ServersAt(u, e.backup)))
    ensures var v := Pass(u, upsname, e.backup, EntryFilter(e, true));
            if Named(u, upsname) && Target(u, e.backup).Some?
            then Cleared(e, ServersAt(u, e.backup), ServersAt(v, e.backup))
                 && Marked(u, v, e.backup) && ServersAt(v, !e.backup) == ServersAt(u, !e.backup)
            else v == u
  {
    hide Good, DeleteGroup, Cleared, Stuck, EntryFilter;
    NamedSelects(u, upsname);
    if Named(u, upsname) && Target(u, e.backup).Some? {
      GroupCleared(e, Target(u, e.backup).value);
    }
  }

  // ----- Editing

  /** A number that is taken if it is positive; a limit is unsigned, so that a negative one is a large number. */
  function Taken(n: int, wraps: bool, current: int): int {
    if n > 0 then n else if n < 0 && wraps then n + WORD else current
  }

  /** The server with what the entry gives. */
  predicate Overridden(e: Entry, x: Server, y: Server) {
    && y.name == x.name && y.server == x.server && y.running == x.running
    && y.weight == Taken(e.weight, false, x.weight) && y.maxConns == Taken(e.maxConns, true, x.maxConns)
    && y.maxFails == Taken(e.maxFails, true, x.maxFails)
    && y.failTimeout == Taken(e.failTimeout, false, x.failTimeout)
    && (if e.down.Some? then (y.down != 0 <==> e.down.value) && y.down <= 1 else y.down == x.down)
  }

  lemma ChangedIs(e: Entry, x: Server)
    ensures Overridden(e, x, Changed(x, EntryChange(e)))
  {
  }

  /** The servers that the entry is about are overridden, in place, and the others are as they were. */
  predicate Reworked(e: Entry, before: seq<Server>, after: seq<Server>) {
    && |after| == |before|
    && forall i :: 0 <= i < |before| ==>
         if About(e, before[i]) then Overridden(e, before[i], after[i]) else after[i] == before[i]
  }

  function Concerned(e: Entry, s: seq<Server>): nat {
    if s == [] then 0 else (if About(e, s[0]) then 1 else 0) + Concerned(e, s[1..])
  }

  function AllConcerned(e: Entry, ups: seq<Upstream>, i: nat, upsname: seq<byte>): nat
    decreases |ups| - i
  {
    if i >= |ups| then 0
    else (if Named(ups[i], upsname) then Concerned(e, ServersAt(ups[i], e.backup)) else 0)
         + AllConcerned(e, ups, i + 1, upsname)
  }

  lemma {:induction false} GroupReworked(e: Entry, g: Group)
    ensures var h := EditGroup(g, EntryFilter(e, false), EntryChange(e));
            Reworked(e, g.servers, h.servers) && h.single == g.single
    ensures Matching(g.servers, EntryFilter(e, false)) == Concerned(e, g.servers)
  {
    hide About, Matches, Changed, Overridden, EntryChange;
    var s := g.servers;
    forall i | 0 <= i < |s| ensures Matches(s[i], EntryFilter(e, false)) <==> About(e, s[i])
      ensures Overridden(e, s[i], Changed(s[i], EntryChange(e)))
    {
      DoomedMatches(e, s[i]);
      ChangedIs(e, s[i]);
    }
    MatchingConcerned(e, s);
  }

  lemma {:induction false} MatchingConcerned(e: Entry, s: seq<Server>)
    ensures Matching(s, EntryFilter(e, false)) == Concerned(e, s)
  {
    hide About, Matches;
    if s != [] {
      DoomedMatches(e, s[0]);
      MatchingConcerned(e, s[1..]);
    }
  }

  lemma {:induction false} ConcernedSame(e: Entry, a: seq<Upstream>, b: seq<Upstream>, i: nat, upsname: seq<byte>)
    requires SameFrom(a, b, i)
    ensures AllConcerned(e, a, i, upsname) == AllConcerned(e, b, i, upsname)
    decreases |a| - i
  {
    if i < |a| {
      ConcernedSame(e, a, b, i + 1, upsname);
    }
  }

  lemma {:induction false} EditFromEffect(ups: seq<Upstream>, i: nat, upsname: seq<byte>, e: Entry, count: int,
        answers: seq<bool>)
    ensures var r := EditFrom(ups, i, upsname, e.backup, EntryFilter(e, false), EntryChange(e), count, answers);
            && |r.ups| == |ups| && r.code == count + AllConcerned(e, ups, i, upsname)
            && (forall j :: 0 <= j < |ups| && (j < i || !Named(ups[j], upsname)) ==> r.ups[j] == ups[j])
            && (forall j :: i <= j < |ups| && Named(ups[j], upsname) ==>
                  Reworked(e, ServersAt(ups[j], e.backup), ServersAt(r.ups[j], e.backup))
                  && Marked(ups[j], r.ups[j], e.backup))
    decreases |ups| - i
  {
    hide EditGroup, EntryFilter, EntryChange, Matching, Reworked, Concerned, SetTarget, Target, ServersAt, Marked;
    if i < |ups| {
      var u, t := ups[i], Target(ups[i], e.backup);
      NotMarked(u, e.backup);
      NamedSelects(u, upsname);
      TargetServers(u, e.backup);
      if !Named(u, upsname) || t.None? {
        NoneConcerned(e);
        EditFromEffect(ups, i + 1, upsname, e, count, answers);
      } else {
        var g := EditGroup(t.value, EntryFilter(e, false), EntryChange(e));
        var v := SetTarget(u, e.backup, g);
        GroupReworked(e, t.value);
        assert |g.servers| == |t.value.servers| by { ReworkedLength(e, t.value.servers, g.servers); }
        ServersSet(u, e.backup, g);
        EditFromEffect(ups[i := v], i + 1, upsname, e, count + Concerned(e, t.value.servers), answers);
        ConcernedSame(e, ups, ups[i := v], i + 1, upsname);
      }
    }
  }

  lemma ReworkedLength(e: Entry, before: seq<Server>, after: seq<Server>)
    requires Reworked(e, before, after)
    ensures |after| == |before|
  {
  }

  lemma NoneConcerned(e: Entry)
    ensures Concerned(e, []) == 0 && Reworked(e, [], [])
  {
  }

  lemma NotMarked(u: Upstream, backup: bool)
    ensures Marked(u, u, backup)
  {
  }

  lemma ServersSet(u: Upstream, backup: bool, g: Group)
    ensures ServersAt(SetTarget(u, backup, g), backup) == g.servers
    ensures Target(u, backup).Some? && |g.servers| == |ServersAt(u, backup)| ==>
              (g.single == Target(u, backup).value.single ==> Marked(u, SetTarget(u, backup, g), backup))
  {
  }

  /** An edit sets what the entry gives, at the servers it is about and nowhere else, and reports how many these
      are. */
  lemma EditEffect(t: Table, upsname: seq<byte>, e: Entry)
    requires t.configured && (e.server.Some? || e.srvname.Some?)
    ensures var r := Perform(t, Edit, upsname, e);
            && |r.ups| == |t.ups| && r.code == AllConcerned(e, t.ups, 0, upsname)
            && forall j :: 0 <= j < |t.ups| ==>
                 if Named(t.ups[j], upsname)
                 then Reworked(e, ServersAt(t.ups[j], e.backup), ServersAt(r.ups[j], e.backup))
                      && Marked(t.ups[j], r.ups[j], e.backup)
                      && ServersAt(r.ups[j], !e.backup) == ServersAt(t.ups[j], !e.backup)
                 else r.ups[j] == t.ups[j]
  {
    hide EditFrom, Reworked;
    EditFromEffect(t.ups, 0, upsname, e, 0, t.answers);
    PerformReaches(t, Edit, upsname, e);
  }

  /** The entry leaves nothing open. */
  predicate Complete(e: Entry) {
    e.weight > 0 && e.maxConns > 0 && e.maxFails > 0 && e.failTimeout > 0 && e.down.Some?
  }

  lemma OverriddenNew(e: Entry, c: Entry, a: Address, x: Server, y: Server)
    requires e.server.Some? && c.server == e.server && Complete(c) && NewFor(e, a, x) && Overridden(c, x, y)
    ensures y.running == x.running && NewFor(c, a, y.(running := Idle(y.weight)))
  {
  }

  /** A server text is added with one entry, to upstreams that do not have it, and edited with another one that leaves
      nothing open: it is there as if it had been added with that one, but for what it has run up, and the other
      servers are as they were. */
  lemma AddThenEdit(t: Table, upsname: seq<byte>, e: Entry, c: Entry, j: nat)
    requires t.configured && GoodUps(t.ups) && e.server.Some? && e.addresses.Some? && j < |t.ups|
    requires c.server == e.server && c.srvname.None? && c.backup == e.backup && Complete(c)
    requires Named(t.ups[j], upsname)
    requires forall i :: 0 <= i < |ServersAt(t.ups[j], e.backup)| ==> !About(c, ServersAt(t.ups[j], e.backup)[i])
    ensures var r1 := Perform(t, Add, upsname, e);
            var r2 := Perform(After(t, r1), Edit, upsname, c);
            && j < |r1.ups| == |r2.ups|
            && var u, v, w, k := t.ups[j], r1.ups[j], r2.ups[j], Surplus(t.ups[j], r1.ups[j], e.backup);
               var was, now := ServersAt(v, e.backup), ServersAt(w, e.backup);
            && 0 <= k <= |e.addresses.value| && |now| == |was| && now[k..] == ServersAt(u, e.backup)
            && forall i :: 0 <= i < k ==>
                 && now[i].running == was[i].running
                 && NewFor(c, e.addresses.value[k - 1 - i], now[i].(running := Idle(now[i].weight)))
  {
    hide Perform, NewFor, About, Overridden, Complete, Surplus;
    AddEffect(t, upsname, e, j);
    var r1 := Perform(t, Add, upsname, e);
    PerformReaches(t, Add, upsname, e);
    EditEffect(After(t, r1), upsname, c);
    var r2 := Perform(After(t, r1), Edit, upsname, c);
    var k := Surplus(t.ups[j], r1.ups[j], e.backup);
    var was, now := ServersAt(r1.ups[j], e.backup), ServersAt(r2.ups[j], e.backup);
    forall i | 0 <= i < k
      ensures now[i].running == was[i].running
      ensures NewFor(c, e.addresses.value[k - 1 - i], now[i].(running := Idle(now[i].weight)))
    {
      AboutNew(e, c, e.addresses.value[k - 1 - i], was[i]);
      OverriddenNew(e, c, e.addresses.value[k - 1 - i], was[i], now[i]);
    }
    forall i | k <= i < |was| ensures now[i] == was[i] {
      assert was[k..][i - k] == was[i];
    }
    assert now[k..] == was[k..];
  }

  lemma AboutNew(e: Entry, c: Entry, a: Address, x: Server)
    requires NewFor(e, a, x) && c.server == e.server && c.srvname.None?
    ensures About(c, x)
  {
  }

  // ----- Listing

  /** The first `k` entries of the primary servers, or of the backup ones, are those that have joined. */
  predicate ListedFirst(e: Entry, u: Upstream, k: nat)
    requires e.addresses.Some? && k <= |e.addresses.value|
  {
    var list, start := Listing.InfoOf(u).peers, if e.backup then |u.primary.servers| else 0;
    && start + k <= |list|
    && forall n :: start <= n < start + k ==>
         list[n].backup == e.backup && NewFor(e, e.addresses.value[k - 1 - (n - start)], list[n].server)
  }

  lemma JoinedListed(e: Entry, before: seq<Server>, u: Upstream, k: nat)
    requires e.addresses.Some? && Joined(e, before, ServersAt(u, e.backup), k)
    ensures k <= |e.addresses.value| && ListedFirst(e, u, k)
  {
    hide NewFor, Listing.InfoOf;
    Listing.ListedPeers(u);
    var list, start := Listing.InfoOf(u).peers, if e.backup then |u.primary.servers| else 0;
    forall n | start <= n < start + k
      ensures list[n].backup == e.backup && NewFor(e, e.addresses.value[k - 1 - (n - start)], list[n].server)
    {
      assert list[n].server == ServersAt(u, e.backup)[n - start];
    }
  }

  /** What an add puts in is listed: in front of the primary servers, or right behind all of them and flagged. */
  lemma AddIsListed(t: Table, upsname: seq<byte>, e: Entry, j: nat)
    requires t.configured && GoodUps(t.ups) && e.server.Some? && e.addresses.Some? && j < |t.ups|
    ensures var r := Perform(t, Add, upsname, e);
            && j < |r.ups|
            && var k := Surplus(t.ups[j], r.ups[j], e.backup);
            && 0 <= k <= |e.addresses.value| && ListedFirst(e, r.ups[j], k)
  {
    hide Perform, Joined, ListedFirst, Surplus, ServersAt;
    AddEffect(t, upsname, e, j);
    var v := Perform(t, Add, upsname, e).ups[j];
    JoinedListed(e, ServersAt(t.ups[j], e.backup), v, Surplus(t.ups[j], v, e.backup));
  }
}
