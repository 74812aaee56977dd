/**
  hdmp_upstreams and sdmp_upstreams: the peers of an upstream in an array whose
  size comes from the cached counters.
 */
module Listing {
  import opened Bytes
  import opened Upstreams
  import opened RegistryLaws
  import opened Peers
  import opened Registry

  datatype Item = Item(server: Server, backup: bool)

  datatype Info = Info(name: seq<byte>, number: int, totalWeight: int, peers: seq<Item>)

  function Flagged(s: seq<Server>, backup: bool): (r: seq<Item>)
    ensures |r| == |s|
  {
    seq(|s|, i requires 0 <= i < |s| => Item(s[i], backup))
  }

  /** The primary servers in the order of their list, and the backup servers behind them. */
  function Items(u: Upstream): seq<Item> {
    Flagged(u.primary.servers, false) + if u.backup.Some? then Flagged(u.backup.value.servers, true) else []
  }

  /** What is reported of an upstream comes from its cached fields. */
  function InfoOf(u: Upstream): Info {
    Info(u.name, u.primary.number + (if u.backup.Some? then u.backup.value.number else 0),
         u.primary.totalWeight + (if u.backup.Some? then u.backup.value.totalWeight else 0), Items(u))
  }

  function ItemWeights(s: seq<Item>): int {
    if s == [] then 0 else s[0].server.weight + ItemWeights(s[1..])
  }

  lemma {:induction false} ItemWeightsOfSum(s: seq<Item>, t: seq<Item>)
    ensures ItemWeights(s + t) == ItemWeights(s) + ItemWeights(t)
  {
    if s == [] {
      assert s + t == t;
    } else {
      assert (s + t)[1..] == s[1..] + t;
      ItemWeightsOfSum(s[1..], t);
    }
  }

  lemma {:induction false} FlaggedWeights(s: seq<Server>, backup: bool)
    ensures ItemWeights(Flagged(s, backup)) == Weights(s)
  {
    if s != [] {
      assert Flagged(s, backup)[1..] == Flagged(s[1..], backup);
      FlaggedWeights(s[1..], backup);
    }
  }

  /** As long as the cached fields are right, the report is consistent: it has as many entries as it says, and
      their weights sum up to the total. */
  lemma InfoIsConsistent(u: Upstream)
    requires GoodUpstream(u)
    ensures InfoOf(u).number == |InfoOf(u).peers| && InfoOf(u).totalWeight == ItemWeights(InfoOf(u).peers)
  {
    FlaggedWeights(u.primary.servers, false);
    if u.backup.Some? {
      FlaggedWeights(u.backup.value.servers, true);
      ItemWeightsOfSum(Flagged(u.primary.servers, false), Flagged(u.backup.value.servers, true));
    } else {
      assert Flagged(u.primary.servers, false) + [] == Flagged(u.primary.servers, false);
    }
  }

  /** Under its name, the servers of an upstream are listed once each, the primary ones in their order and the backup
      ones in theirs behind them; and just these are flagged as backup servers. */
  lemma ListedPeers(u: Upstream)
    ensures var list, n := InfoOf(u).peers, |u.primary.servers|;
            && InfoOf(u).name == u.name && |list| == n + |ServersAt(u, true)|
            && forall k :: 0 <= k < |list| ==>
                 && (list[k].backup <==> k >= n)
                 && list[k].server == if k < n then u.primary.servers[k] else ServersAt(u, true)[k - n]
  {
  }

  predicate Wanted(u: Upstream, upsname: Option<seq<byte>>) {
    u.zoned && (upsname.Some? ==> upsname.value == u.name)
  }

  function InfosUpTo(ups: seq<Upstream>, n: nat, upsname: Option<seq<byte>>): seq<Info>
    requires n <= |ups|
  {
    if n == 0 then []
    else InfosUpTo(ups, n - 1, upsname) + if Wanted(ups[n - 1], upsname) then [InfoOf(ups[n - 1])] else []
  }

  predicate Requested(u: Upstream, upsname: Option<seq<byte>>) {
    u.zoned && (upsname.None? || Some(u.name) == upsname)
  }

  /** How many of the first `n` upstreams have a zone and, if one is given, the name. */
  function Rank(ups: seq<Upstream>, n: nat, upsname: Option<seq<byte>>): nat
    requires n <= |ups|
  {
    if n == 0 then 0 else Rank(ups, n - 1, upsname) + if Requested(ups[n - 1], upsname) then 1 else 0
  }

  lemma WantedIsRequested(u: Upstream, upsname: Option<seq<byte>>)
    ensures Wanted(u, upsname) <==> Requested(u, upsname)
  {
  }

  /** Just these upstreams are reported, in their order. */
  lemma {:induction false} ReportedInOrder(ups: seq<Upstream>, n: nat, upsname: Option<seq<byte>>)
    requires n <= |ups|
    ensures |InfosUpTo(ups, n, upsname)| == Rank(ups, n, upsname)
    ensures forall j :: 0 <= j < n && Requested(ups[j], upsname) ==>
              Rank(ups, j, upsname) < Rank(ups, n, upsname)
              && InfosUpTo(ups, n, upsname)[Rank(ups, j, upsname)] == InfoOf(ups[j])
  {
    hide InfoOf, Wanted, Requested;
    if n > 0 {
      ReportedInOrder(ups, n - 1, upsname);
      WantedIsRequested(ups[n - 1], upsname);
      var list, info := InfosUpTo(ups, n, upsname), InfosUpTo(ups, n - 1, upsname);
      forall j | 0 <= j < n && Requested(ups[j], upsname)
        ensures Rank(ups, j, upsname) < Rank(ups, n, upsname) && list[Rank(ups, j, upsname)] == InfoOf(ups[j])
      {
        if j < n - 1 {
          assert list[Rank(ups, j, upsname)] == info[Rank(ups, j, upsname)];
        }
      }
    }
  }

  function Entries(list: seq<Info>): nat {
    if list == [] then 0 else Entries(list[..|list| - 1]) + |list[|list| - 1].peers|
  }

  lemma EntriesMore(list: seq<Info>, more: seq<Info>)
    requires |more| <= 1
    ensures Entries(list + more) == Entries(list) + if more == [] then 0 else |more[0].peers|
    ensures Entries([]) == 0
  {
    if more == [] {
      assert list + more == list;
    } else {
      assert (list + more)[..|list|] == list;
    }
  }

  /** How many servers the requested ones of the first `n` upstreams have. */
  function Shown(ups: seq<Upstream>, n: nat, upsname: Option<seq<byte>>): nat
    requires n <= |ups|
  {
    if n == 0 then 0
    else
      var u := ups[n - 1];
      Shown(ups, n - 1, upsname)
      + if Requested(u, upsname) then |u.primary.servers| + |ServersAt(u, true)| else 0
  }

  /** And the report has an entry for each of their servers. */
  lemma {:induction false} EntriesAreServers(ups: seq<Upstream>, n: nat, upsname: Option<seq<byte>>)
    requires n <= |ups|
    ensures Entries(InfosUpTo(ups, n, upsname)) == Shown(ups, n, upsname)
  {
    hide InfoOf, Wanted, Requested, Entries;
    EntriesMore([], []);
    if n > 0 {
      EntriesAreServers(ups, n - 1, upsname);
      WantedIsRequested(ups[n - 1], upsname);
      ListedPeers(ups[n - 1]);
      EntriesMore(InfosUpTo(ups, n - 1, upsname),
        if Wanted(ups[n - 1], upsname) then [InfoOf(ups[n - 1])] else []);
    }
  }

  // ----- The loops

  lemma AtTheCursor(g: PeerGroup, i: nat)
    requires Tidy(g) && i < |g.list|
    ensures g.list[i].next == PeerAt(g.list, i + 1) && ServersOf(g.list)[i] == ServerOf(g.list[i])
  {
  }

  lemma AtTheStart(g: PeerGroup)
    requires Tidy(g)
    ensures g.peer == PeerAt(g.list, 0) && |g.list| == |ServersOf(g.list)|
  {
  }

  /** The inner loop: the peers of one group. It would stop at the end of the array, but gets to the end of the list. */
  method DumpPeers(g: PeerGroup, peer: array<Item>, pos: nat, backup: bool) returns (pos': nat)
    requires Tidy(g) && pos + |g.list| <= peer.Length
    modifies peer
    ensures pos' == pos + |g.list| && peer[..pos'] == old(peer[..pos]) + Flagged(ServersOf(g.list), backup)
  {
    hide Tidy, ServersOf;
    AtTheStart(g);
    pos' := pos;
    var p := g.peer;
    ghost var i, items := 0, Flagged(ServersOf(g.list), backup);
    while pos' < peer.Length && p != null
      invariant 0 <= i <= |g.list| && pos' == pos + i && p == PeerAt(g.list, i)
      invariant peer[..pos'] == old(peer[..pos]) + items[..i]
      decreases |g.list| - i
    {
      AtTheCursor(g, i);
      peer[pos'] := Item(Server(Data(p.name), Data(p.server), p.weight, p.maxConns, p.maxFails, p.failTimeout, p.down,
                                p.running), backup);
      assert items[..i + 1] == items[..i] + [items[i]];
      assert peer[..pos' + 1] == peer[..pos'] + [peer[pos']];
      pos', p, i := pos' + 1, p.next, i + 1;
    }
    assert items[..|g.list|] == items;
  }

  /** One upstream: every slot of the array is filled, once. */
  method DumpUpstream(u: PeerGroup) returns (number: int, totalWeight: int, peer: array<Item>, count: nat)
    requires TidyUp(u)
    ensures fresh(peer) && count == peer.Length && Info(u.name, number, totalWeight, peer[..]) == InfoOf(UpstreamOf(u))
  {
    hide TidyUp, ServersOf, Tidy, Flagged, UpstreamOf, InfoOf;
    number := if u.next != null then u.next.number + u.number else u.number;
    totalWeight := if u.next != null then u.next.totalWeight + u.totalWeight else u.totalWeight;
    TidyCounts(u);
    ghost var info, primary, second := InfoOf(UpstreamOf(u)), Flagged(ServersOf(u.list), false),
          Flagged(ServersOf(BackupList(u)), true);
    ghost var stage, done := 0, [];
    peer := new Item[number];
    var groups: PeerGroup?, backup, pos: nat := u, false, 0;
    while groups != null
      invariant 0 <= stage <= 2 && pos == |done| <= peer.Length && peer[..pos] == done
      invariant groups == (if stage == 0 then u else if stage == 1 then u.next else null)
      invariant done == if stage == 0 then [] else if stage == 1 then primary else primary + second
      invariant backup == (stage > 0)
      decreases 2 - stage
    {
      pos := DumpPeers(groups, peer, pos, backup);
      done := done + if stage == 0 then primary else second;
      groups, backup, stage := groups.next, true, stage + 1;
    }
    assert primary + [] == primary;
    assert peer[..pos] == peer[..];
    count := pos;
  }

  lemma TidyCounts(u: PeerGroup)
    requires TidyUp(u)
    ensures Tidy(u) && u.number == |u.list| == |Flagged(ServersOf(u.list), false)|
    ensures u.next == null ==> Flagged(ServersOf(BackupList(u)), true) == []
    ensures u.next != null ==>
              && Tidy(u.next) && u.next.next == null && u.next != u
              && u.next.number == |u.next.list| == |Flagged(ServersOf(u.next.list), true)|
    ensures InfoOf(UpstreamOf(u)).name == u.name
    ensures InfoOf(UpstreamOf(u)).number == u.number + if u.next == null then 0 else u.next.number
    ensures InfoOf(UpstreamOf(u)).totalWeight == u.totalWeight + if u.next == null then 0 else u.next.totalWeight
    ensures InfoOf(UpstreamOf(u)).peers == Flagged(ServersOf(u.list), false) + Flagged(ServersOf(BackupList(u)), true)
  {
  }

  /** The body of the loop over the upstreams. */
  method DumpOne(reg: UpstreamTable, i: nat, upsname: Option<seq<byte>>) returns (list: seq<Info>, n: nat)
    requires reg.Valid() && i < |reg.ups|
    ensures reg.Valid() && reg.State() == old(reg.State())
    ensures list == if Wanted(reg.State()[i], upsname) then [InfoOf(reg.State()[i])] else []
    ensures n == if list == [] then 0 else |list[0].peers|
  {
    hide UpstreamOf, InfoOf, TidyUp, ReachUp, HeldUp;
    list, n := [], 0;
    Reading(reg, i, reg.ups[i].name, false);
    NameOf(reg, i);
    if reg.ups[i].zone < 0 {
      return;
    }
    if upsname.Some? && upsname.value != reg.ups[i].name {
      return;
    }
    var number, totalWeight, peer;
    number, totalWeight, peer, n := DumpUpstream(reg.ups[i]);
    list := [Info(reg.ups[i].name, number, totalWeight, peer[..])];
  }

  lemma NameOf(reg: UpstreamTable, i: nat)
    requires reg.Within() && i < |reg.ups|
    ensures reg.State()[i].name == reg.ups[i].name
  {
  }

  /** hdmp_upstreams and sdmp_upstreams: all upstreams with a zone, or those of one name. */
  method DumpUpstreams(reg: UpstreamTable, upsname: Option<seq<byte>>) returns (list: seq<Info>, count: int)
    requires reg.Valid()
    ensures reg.Valid() && reg.State() == old(reg.State())
    ensures !reg.configured ==> count == E_NO_UPS && list == []
    ensures reg.configured ==> list == InfosUpTo(reg.State(), |reg.ups|, upsname) && count == Entries(list)
  {
    hide UpstreamTable.Within, UpstreamTable.Covered, UpstreamTable.AllTidy, UpstreamTable.Separate,
      UpstreamTable.Balanced, UpstreamTable.State, InfoOf, Entries, Wanted;
    if !reg.configured {
      return [], E_NO_UPS;
    }
    list, count := [], 0;
    EntriesMore([], []);
    for i := 0 to |reg.ups|
      invariant reg.Valid() && reg.State() == old(reg.State())
      invariant list == InfosUpTo(reg.State(), i, upsname) && count == Entries(list)
    {
      var more, n := DumpOne(reg, i, upsname);
      EntriesMore(list, more);
      list, count := list + more, count + n;
    }
  }
}
