/**
  What requests do to the whole registry, one by one and over every run.
 */
module RegistryLaws {
  import opened Bytes
  import opened Upstreams
  import opened UpstreamLaws

  // ----- What an entry says

  predicate Named(u: Upstream, upsname: seq<byte>) {
    u.name == upsname && u.zoned
  }

  /** The servers a call is about: those of the backup group, if there is one, or the primary ones. */
  function ServersAt(u: Upstream, backup: bool): seq<Server> {
    if !backup then u.primary.servers else if u.backup.Some? then u.backup.value.servers else []
  }

  /** The address and the server text are those of the entry, as far as it gives them. */
  predicate About(e: Entry, x: Server) {
    (e.srvname.Some? ==> x.name == e.srvname.value) && (e.server.Some? ==> x.server == e.server.value)
  }

  /** A delete is about servers that are down if the entry says so, and else about servers that are not. */
  predicate Doomed(e: Entry, x: Server) {
    About(e, x) && x.down == if e.down == Some(true) then 1 else 0
  }

  lemma DoomedMatches(e: Entry, x: Server)
    ensures Matches(x, EntryFilter(e, true)) <==> Doomed(e, x)
    ensures Matches(x, EntryFilter(e, false)) <==> About(e, x)
  {
  }

  lemma NamedSelects(u: Upstream, upsname: seq<byte>)
    ensures Selects(u, upsname) <==> Named(u, upsname)
  {
  }

  lemma TargetServers(u: Upstream, backup: bool)
    ensures ServersAt(u, backup) == if Target(u, backup).Some? then Target(u, backup).value.servers else []
    ensures GoodUpstream(u) && Target(u, backup).Some? ==> Good(Target(u, backup).value)
    ensures EMPTY.servers == [] && Good(EMPTY)
  {
  }

  // ----- What stays right

  predicate GoodUps(ups: seq<Upstream>) {
    forall i :: 0 <= i < |ups| ==> GoodUpstream(ups[i])
  }

  /** Requests do not rename, reorder or remove upstreams, and a backup group once there stays. */
  predicate SameShape(a: seq<Upstream>, b: seq<Upstream>) {
    && |a| == |b|
    && forall i :: 0 <= i < |a| ==>
         a[i].name == b[i].name && a[i].zoned == b[i].zoned && (a[i].backup.Some? ==> b[i].backup.Some?)
         && (!a[i].zoned ==> a[i] == b[i])
  }

  /** The group at `k` is replaced by another good one. */
  lemma SetKeepsGood(ups: seq<Upstream>, k: nat, backup: bool, g: Group)
    requires k < |ups| && ups[k].zoned && GoodUps(ups) && Good(g)
    ensures var r := ups[k := SetTarget(ups[k], backup, g)]; GoodUps(r) && SameShape(ups, r)
  {
  }

  lemma {:induction false} DeleteFromGood(ups: seq<Upstream>, i: nat, upsname: seq<byte>, backup: bool, f: Filter,
        count: int, answers: seq<bool>)
    requires GoodUps(ups)
    ensures var r := DeleteFrom(ups, i, upsname, backup, f, count, answers).ups; GoodUps(r) && SameShape(ups, r)
    decreases |ups| - i
  {
    hide Good, LeftOne, DeleteGroup, DeleteCode;
    if i < |ups| {
      var t := Target(ups[i], backup);
      if !Selects(ups[i], upsname) || t.None? {
        DeleteFromGood(ups, i + 1, upsname, backup, f, count, answers);
      } else if !LeftOne(t.value.servers, f) {
        DeleteKeepsGood(t.value, f);
        SetKeepsGood(ups, i, backup, DeleteGroup(t.value, f));
        DeleteFromGood(ups[i := SetTarget(ups[i], backup, DeleteGroup(t.value, f))], i + 1, upsname, backup, f,
                       count + DeleteCode(t.value, f), answers);
      }
    }
  }

  lemma {:induction false} EditFromGood(ups: seq<Upstream>, i: nat, upsname: seq<byte>, backup: bool, f: Filter,
        c: Change, count: int, answers: seq<bool>)
    requires GoodUps(ups) && (c.weight.Some? ==> c.weight.value >= 1)
    ensures var r := EditFrom(ups, i, upsname, backup, f, c, count, answers).ups; GoodUps(r) && SameShape(ups, r)
    decreases |ups| - i
  {
    hide Good, EditGroup, Matching;
    if i < |ups| {
      var t := Target(ups[i], backup);
      if !Selects(ups[i], upsname) || t.None? {
        EditFromGood(ups, i + 1, upsname, backup, f, c, count, answers);
      } else {
        EditKeepsGood(t.value, f, c);
        SetKeepsGood(ups, i, backup, EditGroup(t.value, f, c));
        EditFromGood(ups[i := SetTarget(ups[i], backup, EditGroup(t.value, f, c))], i + 1, upsname, backup, f, c,
                     count + Matching(t.value.servers, f), answers);
      }
    }
  }

  lemma {:induction false} AddFromGood(ups: seq<Upstream>, i: nat, upsname: seq<byte>, backup: bool,
        addresses: seq<Address>, p: Server, count: int, answers: seq<bool>)
    requires GoodUps(ups) && p.weight >= 1 && count >= 0
    ensures var r := AddFrom(ups, i, upsname, backup, addresses, p, count, answers).ups; GoodUps(r) && SameShape(ups, r)
    decreases |ups| - i
  {
    hide Good, AddServers, Weights, Positive;
    if i < |ups| {
      var t := Target(ups[i], backup);
      if !Selects(ups[i], upsname) {
        AddFromGood(ups, i + 1, upsname, backup, addresses, p, count, answers);
      } else if t.Some? || Granted(answers) {
        var g := if t.None? then EMPTY else t.value;
        EmptyIsGood();
        var a := if t.None? then Later(answers) else answers;
        AddServersFacts(g, addresses, p, a, count);
        var r := AddServers(g, addresses, p, a, count);
        SetKeepsGood(ups, i, backup, r.group);
        if r.code >= 0 {
          AddFromGood(ups[i := SetTarget(ups[i], backup, r.group)], i + 1, upsname, backup, addresses, p,
                      r.code, r.answers);
        }
      }
    }
  }

  lemma EmptyIsGood()
    ensures Good(EMPTY)
  {
  }

  // ----- What a call does not touch

  /** Nothing but the group asked for, primary or backup, of the upstreams with the name differs. */
  predicate OnlyTargets(a: seq<Upstream>, b: seq<Upstream>, upsname: seq<byte>, backup: bool) {
    && |a| == |b|
    && forall i :: 0 <= i < |a| ==>
         && a[i].name == b[i].name && a[i].zoned == b[i].zoned
         && (!Named(a[i], upsname) ==> a[i] == b[i])
         && (if backup then a[i].primary == b[i].primary else a[i].backup == b[i].backup)
  }

  lemma OneTarget(ups: seq<Upstream>, k: nat, g: Group, r: seq<Upstream>, upsname: seq<byte>, backup: bool)
    requires k < |ups| && Selects(ups[k], upsname)
             && OnlyTargets(ups[k := SetTarget(ups[k], backup, g)], r, upsname, backup)
    ensures OnlyTargets(ups, r, upsname, backup)
  {
    var ups' := ups[k := SetTarget(ups[k], backup, g)];
    assert forall i :: 0 <= i < |ups| ==> Selects(ups'[i], upsname) == Selects(ups[i], upsname);
  }

  lemma {:induction false} DeleteReaches(ups: seq<Upstream>, i: nat, upsname: seq<byte>, backup: bool, f: Filter,
        count: int, answers: seq<bool>)
    ensures OnlyTargets(ups, DeleteFrom(ups, i, upsname, backup, f, count, answers).ups, upsname, backup)
    decreases |ups| - i
  {
    hide LeftOne, DeleteGroup, DeleteCode;
    if i < |ups| {
      var t := Target(ups[i], backup);
      if !Selects(ups[i], upsname) || t.None? {
        DeleteReaches(ups, i + 1, upsname, backup, f, count, answers);
      } else if !LeftOne(t.value.servers, f) {
        var g, n := DeleteGroup(t.value, f), count + DeleteCode(t.value, f);
        var ups' := ups[i := SetTarget(ups[i], backup, g)];
        DeleteReaches(ups', i + 1, upsname, backup, f, n, answers);
        OneTarget(ups, i, g, DeleteFrom(ups', i + 1, upsname, backup, f, n, answers).ups, upsname, backup);
      }
    }
  }

  lemma {:induction false} EditReaches(ups: seq<Upstream>, i: nat, upsname: seq<byte>, backup: bool, f: Filter,
        c: Change, count: int, answers: seq<bool>)
    ensures OnlyTargets(ups, EditFrom(ups, i, upsname, backup, f, c, count, answers).ups, upsname, backup)
    decreases |ups| - i
  {
    hide EditGroup, Matching;
    if i < |ups| {
      var t := Target(ups[i], backup);
      if !Selects(ups[i], upsname) || t.None? {
        EditReaches(ups, i + 1, upsname, backup, f, c, count, answers);
      } else {
        var g, n := EditGroup(t.value, f, c), count + Matching(t.value.servers, f);
        var ups' := ups[i := SetTarget(ups[i], backup, g)];
        EditReaches(ups', i + 1, upsname, backup, f, c, n, answers);
        OneTarget(ups, i, g, EditFrom(ups', i + 1, upsname, backup, f, c, n, answers).ups, upsname, backup);
      }
    }
  }

  lemma {:induction false} AddReaches(ups: seq<Upstream>, i: nat, upsname: seq<byte>, backup: bool,
        addresses: seq<Address>, p: Server, count: int, answers: seq<bool>)
    ensures OnlyTargets(ups, AddFrom(ups, i, upsname, backup, addresses, p, count, answers).ups, upsname, backup)
    decreases |ups| - i
  {
    hide AddServers;
    if i < |ups| {
      var t := Target(ups[i], backup);
      if !Selects(ups[i], upsname) {
        AddReaches(ups, i + 1, upsname, backup, addresses, p, count, answers);
      } else if t.Some? || Granted(answers) {
        var r := AddServers(if t.None? then EMPTY else t.value, addresses, p,
          if t.None? then Later(answers) else answers, count);
        var ups' := ups[i := SetTarget(ups[i], backup, r.group)];
        if r.code < 0 {
          OneTarget(ups, i, r.group, ups', upsname, backup);
        } else {
          AddReaches(ups', i + 1, upsname, backup, addresses, p, r.code, r.answers);
          OneTarget(ups, i, r.group, AddFrom(ups', i + 1, upsname, backup, addresses, p, r.code, r.answers).ups,
            upsname, backup);
        }
      }
    }
  }

  /** A call, also one that fails, reaches only upstreams of its name that have a zone, and of these only the
      primary or only the backup group. */
  lemma PerformReaches(t: Table, verb: Verb, upsname: seq<byte>, e: Entry)
    ensures OnlyTargets(t.ups, Perform(t, verb, upsname, e).ups, upsname, e.backup)
  {
    hide AddFrom, DeleteFrom, EditFrom;
    match verb
    case Add =>
      if e.server.Some? && e.addresses.Some? {
        AddReaches(t.ups, 0, upsname, e.backup, e.addresses.value, NewServer(e), 0, t.answers);
      }
    case Delete => DeleteReaches(t.ups, 0, upsname, e.backup, EntryFilter(e, true), 0, t.answers);
    case Edit => EditReaches(t.ups, 0, upsname, e.backup, EntryFilter(e, false), EntryChange(e), 0, t.answers);
  }

  // ----- Runs

  predicate GoodState(st: State) {
    GoodUps(st.http.ups) && GoodUps(st.stream.ups)
  }

  predicate SameShapes(a: State, b: State) {
    && a.http.configured == b.http.configured && SameShape(a.http.ups, b.http.ups)
    && a.stream.configured == b.stream.configured && SameShape(a.stream.ups, b.stream.ups)
  }

  lemma ShapesCompose(a: State, b: State, c: State)
    requires SameShapes(a, b) && SameShapes(b, c)
    ensures SameShapes(a, c)
  {
  }

  lemma PerformGood(t: Table, verb: Verb, upsname: seq<byte>, e: Entry)
    requires GoodUps(t.ups)
    ensures var r := Perform(t, verb, upsname, e); GoodUps(r.ups) && SameShape(t.ups, r.ups)
  {
    hide GoodUps, AddFrom, DeleteFrom, EditFrom;
    match verb
    case Add =>
      if e.server.Some? && e.addresses.Some? {
        AddFromGood(t.ups, 0, upsname, e.backup, e.addresses.value, NewServer(e), 0, t.answers);
      }
    case Delete => DeleteFromGood(t.ups, 0, upsname, e.backup, EntryFilter(e, true), 0, t.answers);
    case Edit => EditFromGood(t.ups, 0, upsname, e.backup, EntryFilter(e, false), EntryChange(e), 0, t.answers);
  }

  lemma ServeEntryGood(v: Served, verb: Verb, protocol: Protocol, upsname: seq<byte>, e: Entry)
    requires GoodState(v.state)
    ensures var r := ServeEntry(v, verb, protocol, upsname, e).state; GoodState(r) && SameShapes(v.state, r)
  {
    hide Perform, GoodUps;
    PerformGood(Half(v.state, protocol), verb, upsname, e);
  }

  lemma {:induction false} ServeEntriesGood(v: Served, verb: Verb, protocol: Protocol, upsname: seq<byte>,
        es: seq<Entry>)
    requires GoodState(v.state)
    ensures var r := ServeEntries(v, verb, protocol, upsname, es).state; GoodState(r) && SameShapes(v.state, r)
    decreases |es|
  {
    hide ServeEntry, GoodState;
    if es != [] {
      var w := ServeEntry(v, verb, protocol, upsname, es[0]);
      ServeEntryGood(v, verb, protocol, upsname, es[0]);
      ServeEntriesGood(w, verb, protocol, upsname, es[1..]);
      ShapesCompose(v.state, w.state, ServeEntries(w, verb, protocol, upsname, es[1..]).state);
    }
  }

  lemma {:induction false} ServeSectionsGood(v: Served, verb: Verb, ss: seq<Section>)
    requires GoodState(v.state)
    ensures var r := ServeSections(v, verb, ss).state; GoodState(r) && SameShapes(v.state, r)
    decreases |ss|
  {
    hide ServeEntries, GoodState;
    if ss != [] {
      var w := ServeSection(v, verb, ss[0]);
      if ss[0].protocol.Some? && ss[0].upsname.Some? && ss[0].peers.Some? {
        ServeEntriesGood(v, verb, ss[0].protocol.value, ss[0].upsname.value, ss[0].peers.value);
      }
      ServeSectionsGood(w, verb, ss[1..]);
      ShapesCompose(v.state, w.state, ServeSections(w, verb, ss[1..]).state);
    }
  }

  /** Over every run of requests, whatever the allocator answers, the cached fields of every group agree with
      its list, and all weights are at least one. */
  lemma {:induction false} RunGood(st: State, rs: seq<Request>)
    requires GoodState(st)
    ensures GoodState(ServeAll(st, rs)) && SameShapes(st, ServeAll(st, rs))
    decreases |rs|
  {
    hide ServeSections, GoodState;
    if rs != [] {
      var w := Serve(st, rs[0]).state;
      ServeSectionsGood(Served(st, Tally(0, 0)), rs[0].verb, rs[0].sections);
      RunGood(w, rs[1..]);
      ShapesCompose(st, w, ServeAll(w, rs[1..]));
    }
  }
}
