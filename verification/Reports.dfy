/**
  What a client can conclude from the counters in a reply: exactly when the
  reported `success` is the number of servers that were added or removed.
 */
module Reports {
  import opened Bytes
  import opened Upstreams
  import opened UpstreamLaws
  import opened RegistryLaws

  function Size(u: Upstream): nat {
    |u.primary.servers| + if u.backup.Some? then |u.backup.value.servers| else 0
  }

  /** All servers of all upstreams. */
  function Population(ups: seq<Upstream>): nat {
    if ups == [] then 0 else Size(ups[0]) + Population(ups[1..])
  }

  lemma {:induction false} PopulationSet(ups: seq<Upstream>, k: nat, u: Upstream)
    requires k < |ups|
    ensures Population(ups[k := u]) == Population(ups) - Size(ups[k]) + Size(u)
    decreases k
  {
    if k > 0 {
      assert ups[k := u][1..] == ups[1..][k - 1 := u];
      PopulationSet(ups[1..], k - 1, u);
    } else {
      assert ups[k := u][1..] == ups[1..];
    }
  }

  /** What a call adds to the counter `success`. */
  function Gain(code: int): nat { if code > 0 then code else 0 }

  predicate SameFrom(a: seq<Upstream>, b: seq<Upstream>, i: nat) {
    |a| == |b| && forall j :: i <= j < |a| ==> a[j] == b[j]
  }

  // ----- Deleting

  /** The upstream loses servers, when the loop gets to it. */
  predicate Removes(u: Upstream, upsname: seq<byte>, backup: bool, f: Filter) {
    && Selects(u, upsname) && Target(u, backup).Some?
    && !LeftOne(Target(u, backup).value.servers, f) && Matching(Target(u, backup).value.servers, f) > 0
  }

  /** The upstream ends the call, when the loop gets to it: its last server matches. */
  predicate Refuses(u: Upstream, upsname: seq<byte>, backup: bool, f: Filter) {
    Selects(u, upsname) && Target(u, backup).Some? && LeftOne(Target(u, backup).value.servers, f)
  }

  /** No upstream loses servers before another one ends the call. */
  predicate DeleteIsReported(ups: seq<Upstream>, upsname: seq<byte>, backup: bool, f: Filter) {
    !exists h, l :: 0 <= h < l < |ups| && Removes(ups[h], upsname, backup, f) && Refuses(ups[l], upsname, backup, f)
                    && forall j :: 0 <= j < h ==> !Refuses(ups[j], upsname, backup, f)
  }

  /** The upstream that ends the call, or the end of the list. */
  function Stop(ups: seq<Upstream>, i: nat, upsname: seq<byte>, backup: bool, f: Filter): (k: nat)
    requires i <= |ups|
    ensures i <= k <= |ups| && (k < |ups| ==> Refuses(ups[k], upsname, backup, f))
    ensures forall j :: i <= j < k ==> !Refuses(ups[j], upsname, backup, f)
    decreases |ups| - i
  {
    if i == |ups| || Refuses(ups[i], upsname, backup, f) then i else Stop(ups, i + 1, upsname, backup, f)
  }

  /** An upstream from `i` to `k` loses servers. */
  predicate SomeRemoves(ups: seq<Upstream>, i: nat, k: nat, upsname: seq<byte>, backup: bool, f: Filter)
    requires k <= |ups|
    decreases k - i
  {
    i < k && (Removes(ups[i], upsname, backup, f) || SomeRemoves(ups, i + 1, k, upsname, backup, f))
  }

  lemma {:induction false} SomeRemovesIs(ups: seq<Upstream>, i: nat, k: nat, upsname: seq<byte>, backup: bool,
        f: Filter)
    requires k <= |ups|
    ensures SomeRemoves(ups, i, k, upsname, backup, f)
            <==> exists h :: i <= h < k && Removes(ups[h], upsname, backup, f)
    decreases k - i
  {
    if i < k {
      SomeRemovesIs(ups, i + 1, k, upsname, backup, f);
    }
  }

  lemma {:induction false} StopSame(a: seq<Upstream>, b: seq<Upstream>, i: nat, upsname: seq<byte>, backup: bool,
        f: Filter)
    requires SameFrom(a, b, i) && i <= |a|
    ensures Stop(a, i, upsname, backup, f) == Stop(b, i, upsname, backup, f)
    ensures var k := Stop(a, i, upsname, backup, f);
            SomeRemoves(a, i, k, upsname, backup, f) == SomeRemoves(b, i, k, upsname, backup, f)
    decreases |a| - i
  {
    hide Removes, Refuses;
    if i < |a| {
      StopSame(a, b, i + 1, upsname, backup, f);
    }
  }

  /** How many servers a delete takes from a group. */
  lemma Removed(g: Group, f: Filter)
    requires !LeftOne(g.servers, f)
    ensures DeleteCode(g, f) == |g.servers| - |DeleteGroup(g, f).servers| >= 0
    ensures DeleteCode(g, f) > 0 <==> Matching(g.servers, f) > 0
  {
    var s := g.servers;
    DeleteOutcome(s, f);
    KeepFacts(s, f);
    if s != [] {
      KeepFacts(s[1..], f);
      if Matches(s[0], f) {
        KeepFacts(s[2..], f);
      }
    }
  }

  lemma SizeOfTarget(u: Upstream, backup: bool, g: Group)
    requires Target(u, backup).Some?
    ensures Size(SetTarget(u, backup, g)) == Size(u) - |Target(u, backup).value.servers| + |g.servers|
  {
  }

  /** What a delete makes of one upstream that does not refuse. */
  function Lighter(u: Upstream, upsname: seq<byte>, backup: bool, f: Filter): Upstream
    requires !Refuses(u, upsname, backup, f)
  {
    if !Selects(u, upsname) || Target(u, backup).None? then u
    else SetTarget(u, backup, DeleteGroup(Target(u, backup).value, f))
  }

  lemma DeleteStep(ups: seq<Upstream>, i: nat, upsname: seq<byte>, backup: bool, f: Filter, count: int,
        answers: seq<bool>)
    requires i < |ups| && !Refuses(ups[i], upsname, backup, f)
    ensures var u := Lighter(ups[i], upsname, backup, f);
            && DeleteFrom(ups, i, upsname, backup, f, count, answers)
               == DeleteFrom(ups[i := u], i + 1, upsname, backup, f, count + (Size(ups[i]) - Size(u)), answers)
            && Size(u) <= Size(ups[i]) && (Size(u) < Size(ups[i]) <==> Removes(ups[i], upsname, backup, f))
  {
    hide LeftOne, DeleteGroup, DeleteCode, Matching, Size, SetTarget, Target;
    var t := Target(ups[i], backup);
    if Selects(ups[i], upsname) && t.Some? {
      Removed(t.value, f);
      SizeOfTarget(ups[i], backup, DeleteGroup(t.value, f));
    } else {
      assert ups[i := ups[i]] == ups;
    }
  }

  lemma DeleteEnds(ups: seq<Upstream>, i: nat, upsname: seq<byte>, backup: bool, f: Filter, count: int,
        answers: seq<bool>)
    requires i == |ups| || (i < |ups| && Refuses(ups[i], upsname, backup, f))
    ensures DeleteFrom(ups, i, upsname, backup, f, count, answers)
            == Reply(ups, if i == |ups| then count else E_UPS_LEFT_ONE, answers)
  {
  }

  lemma {:induction false} DeleteFromReports(ups: seq<Upstream>, i: nat, upsname: seq<byte>, backup: bool, f: Filter,
        count: int, answers: seq<bool>)
    requires i <= |ups|
    ensures var r := DeleteFrom(ups, i, upsname, backup, f, count, answers);
            var lost := Population(ups) - Population(r.ups);
            var stop := Stop(ups, i, upsname, backup, f);
            && lost >= 0 && r.code == (if stop < |ups| then E_UPS_LEFT_ONE else count + lost)
            && (lost > 0 <==> SomeRemoves(ups, i, stop, upsname, backup, f))
    decreases |ups| - i
  {
    hide DeleteFrom, Refuses, Removes, Lighter, Population, Size;
    if i == |ups| || Refuses(ups[i], upsname, backup, f) {
      DeleteEnds(ups, i, upsname, backup, f, count, answers);
    } else {
      var u := Lighter(ups[i], upsname, backup, f);
      DeleteStep(ups, i, upsname, backup, f, count, answers);
      PopulationSet(ups, i, u);
      StopSame(ups, ups[i := u], i + 1, upsname, backup, f);
      DeleteFromReports(ups[i := u], i + 1, upsname, backup, f, count + (Size(ups[i]) - Size(u)), answers);
    }
  }

  /** On any table: the code of a delete reports what was removed if and only if no upstream loses servers
      before the call is ended by another one. */
  lemma DeleteReportsExactly(ups: seq<Upstream>, upsname: seq<byte>, backup: bool, f: Filter, answers: seq<bool>)
    ensures var r := DeleteFrom(ups, 0, upsname, backup, f, 0, answers);
            && Population(ups) - Population(r.ups) >= Gain(r.code)
            && (Population(ups) - Population(r.ups) == Gain(r.code) <==> DeleteIsReported(ups, upsname, backup, f))
  {
    hide DeleteFrom, Stop, SomeRemoves, Population, LeftOne, Matching;
    DeleteFromReports(ups, 0, upsname, backup, f, 0, answers);
    SomeRemovesIs(ups, 0, Stop(ups, 0, upsname, backup, f), upsname, backup, f);
  }

  // ----- Adding

  /** How many requests for memory are granted before the first refusal. */
  function Grants(answers: seq<bool>): (n: nat) {
    if Granted(answers) then 1 + Grants(answers[1..]) else 0
  }

  /** What a call needs at one upstream: the record of a missing group, and four blocks for each address. */
  function Needs(u: Upstream, upsname: seq<byte>, backup: bool, addresses: nat): nat {
    if !Selects(u, upsname) then 0 else (if Target(u, backup).None? then 1 else 0) + 4 * addresses
  }

  function NeedsFrom(ups: seq<Upstream>, i: nat, upsname: seq<byte>, backup: bool, addresses: nat): nat
    decreases |ups| - i
  {
    if i >= |ups| then 0
    else Needs(ups[i], upsname, backup, addresses) + NeedsFrom(ups, i + 1, upsname, backup, addresses)
  }

  /** What it needs to get to its first new peer. */
  function NeedsForFirst(ups: seq<Upstream>, i: nat, upsname: seq<byte>, backup: bool): nat
    decreases |ups| - i
  {
    if i >= |ups| then 0
    else if Selects(ups[i], upsname) then Needs(ups[i], upsname, backup, 1)
    else NeedsForFirst(ups, i + 1, upsname, backup)
  }

  /** The memory suffices for all that the call needs, or not for a single peer. */
  predicate AddIsReported(ups: seq<Upstream>, upsname: seq<byte>, backup: bool, addresses: seq<Address>,
        answers: seq<bool>) {
    || addresses == []
    || Grants(answers) >= NeedsFrom(ups, 0, upsname, backup, |addresses|)
    || Grants(answers) < NeedsForFirst(ups, 0, upsname, backup)
  }

  lemma {:induction false} NeedsSame(a: seq<Upstream>, b: seq<Upstream>, i: nat, upsname: seq<byte>, backup: bool,
        addresses: nat)
    requires SameFrom(a, b, i)
    ensures NeedsFrom(a, i, upsname, backup, addresses) == NeedsFrom(b, i, upsname, backup, addresses)
    ensures NeedsForFirst(a, i, upsname, backup) == NeedsForFirst(b, i, upsname, backup)
    decreases |a| - i
  {
    if i < |a| {
      NeedsSame(a, b, i + 1, upsname, backup, addresses);
    }
  }

  lemma GrantsLater(answers: seq<bool>)
    ensures Granted(answers) ==> Grants(answers) == 1 + Grants(Later(answers))
    ensures !Granted(answers) ==> Grants(answers) == 0
  {
  }

  lemma ClaimGrants(answers: seq<bool>)
    ensures var c := ClaimPeer(answers);
            && (c.code == 0 <==> Grants(answers) >= 4) && (c.code == 0 ==> Grants(c.answers) == Grants(answers) - 4)
            && (c.code == 0 || c.code == E_SLAB_CALLOC || c.code == E_SLAB_ALLOC)
  {
    GrantsLater(answers);
    GrantsLater(Later(answers));
    GrantsLater(Later(Later(answers)));
    GrantsLater(Later(Later(Later(answers))));
    hide Grants, Granted, Later;
  }

  lemma {:induction false} AddServersReports(g: Group, addresses: seq<Address>, p: Server, answers: seq<bool>,
        count: int)
    requires count >= 0
    ensures var r := AddServers(g, addresses, p, answers, count);
            var n, added := Grants(answers), |r.group.servers| - |g.servers|;
            && added >= 0 && (r.code >= 0 <==> n >= 4 * |addresses|)
            && (r.code >= 0 ==>
                  added == |addresses| && r.code == count + added && Grants(r.answers) == n - 4 * |addresses|)
            && (r.code < 0 ==> (added == 0 <==> n < 4))
    decreases |addresses|
  {
    hide ClaimPeer, Grants;
    ClaimGrants(answers);
    if addresses != [] {
      var c := ClaimPeer(answers);
      AddServersReports(Prepend(g, p.(name := addresses[0].name)), addresses[1..], p, c.answers, count + 1);
    }
  }

  lemma SizeOfNew(u: Upstream, backup: bool, g: Group)
    requires Target(u, backup).None?
    ensures Size(SetTarget(u, backup, g)) == Size(u) + |g.servers|
  {
  }

  lemma {:induction false} AddFromReports(ups: seq<Upstream>, i: nat, upsname: seq<byte>, backup: bool,
        addresses: seq<Address>, p: Server, count: int, answers: seq<bool>)
    requires i <= |ups| && count >= 0
    ensures var r := AddFrom(ups, i, upsname, backup, addresses, p, count, answers);
            var n, added := Grants(answers), Population(r.ups) - Population(ups);
            && added >= 0 && (r.code >= 0 <==> n >= NeedsFrom(ups, i, upsname, backup, |addresses|))
            && (r.code >= 0 ==> r.code == count + added)
            && (r.code < 0 ==> (added == 0 <==> addresses == [] || n < NeedsForFirst(ups, i, upsname, backup)))
    decreases |ups| - i
  {
    hide AddServers, Grants, Granted, Later, Population, Size, SetTarget;
    if i < |ups| {
      var t := Target(ups[i], backup);
      if !Selects(ups[i], upsname) {
        AddFromReports(ups, i + 1, upsname, backup, addresses, p, count, answers);
      } else {
        GrantsLater(answers);
        if t.Some? || Granted(answers) {
          var g, a := if t.None? then EMPTY else t.value, if t.None? then Later(answers) else answers;
          AddServersReports(g, addresses, p, a, count);
          var r := AddServers(g, addresses, p, a, count);
          var u := SetTarget(ups[i], backup, r.group);
          if t.None? { SizeOfNew(ups[i], backup, r.group); } else { SizeOfTarget(ups[i], backup, r.group); }
          PopulationSet(ups, i, u);
          if r.code >= 0 {
            NeedsSame(ups, ups[i := u], i + 1, upsname, backup, |addresses|);
            AddFromReports(ups[i := u], i + 1, upsname, backup, addresses, p, r.code, r.answers);
          }
        }
      }
    }
  }

  /** On any table: the code of an add reports what was added if and only if the memory suffices for all that the
      selected upstreams need, missing groups included, or not even for the first peer of the first of them. */
  lemma AddReportsExactly(ups: seq<Upstream>, upsname: seq<byte>, backup: bool, addresses: seq<Address>, p: Server,
        answers: seq<bool>)
    ensures var r := AddFrom(ups, 0, upsname, backup, addresses, p, 0, answers);
            && Population(r.ups) - Population(ups) >= Gain(r.code)
            && (Population(r.ups) - Population(ups) == Gain(r.code)
                <==> AddIsReported(ups, upsname, backup, addresses, answers))
  {
    AddFromReports(ups, 0, upsname, backup, addresses, p, 0, answers);
  }

  // ----- Calls

  /** Servers gained, or lost by a delete. */
  function Moved(verb: Verb, before: nat, after: nat): int {
    if verb.Delete? then before - after else after - before
  }

  /** What can be checked before a call that adds or deletes: whether its code will report what it does. */
  predicate IsReported(t: Table, verb: Verb, upsname: seq<byte>, e: Entry) {
    match verb
    case Add =>
      e.server.None? || e.addresses.None? || !t.configured
      || AddIsReported(t.ups, upsname, e.backup, e.addresses.value, t.answers)
    case Delete =>
      (e.server.None? && e.srvname.None?) || !t.configured
      || DeleteIsReported(t.ups, upsname, e.backup, EntryFilter(e, true))
    case Edit => true
  }

  lemma PerformReportsExactly(t: Table, verb: Verb, upsname: seq<byte>, e: Entry)
    requires !verb.Edit?
    ensures var r := Perform(t, verb, upsname, e);
            var change := Moved(verb, Population(t.ups), Population(r.ups));
            change >= Gain(r.code) && (change == Gain(r.code) <==> IsReported(t, verb, upsname, e))
  {
    hide AddFrom, DeleteFrom, AddIsReported, DeleteIsReported, Population;
    if verb.Add? {
      if e.server.Some? && e.addresses.Some? {
        AddReportsExactly(t.ups, upsname, e.backup, e.addresses.value, NewServer(e), t.answers);
      }
    } else {
      DeleteReportsExactly(t.ups, upsname, e.backup, EntryFilter(e, true), t.answers);
    }
  }

  // ----- Requests

  function People(st: State): nat {
    Population(st.http.ups) + Population(st.stream.ups)
  }

  /** Every call of the request will report what it does, in the state in which it is made. */
  predicate EntriesReported(v: Served, verb: Verb, protocol: Protocol, upsname: seq<byte>, es: seq<Entry>)
    decreases |es|
  {
    es == [] || (IsReported(Half(v.state, protocol), verb, upsname, es[0])
                 && EntriesReported(ServeEntry(v, verb, protocol, upsname, es[0]), verb, protocol, upsname, es[1..]))
  }

  predicate SectionReported(v: Served, verb: Verb, s: Section) {
    s.protocol.None? || s.upsname.None? || s.peers.None?
    || EntriesReported(v, verb, s.protocol.value, s.upsname.value, s.peers.value)
  }

  predicate SectionsReported(v: Served, verb: Verb, ss: seq<Section>)
    decreases |ss|
  {
    ss == [] || (SectionReported(v, verb, ss[0]) && SectionsReported(ServeSection(v, verb, ss[0]), verb, ss[1..]))
  }

  /** Nobody is missing from the counter, or somebody is. */
  predicate Counts(verb: Verb, before: Served, after: Served, exact: bool) {
    var missing := Moved(verb, People(before.state), People(after.state))
                   - (after.tally.success - before.tally.success);
    missing >= 0 && (missing == 0 <==> exact)
  }

  lemma CountsCompose(verb: Verb, a: Served, b: Served, c: Served, x: bool, y: bool)
    requires Counts(verb, a, b, x) && Counts(verb, b, c, y)
    ensures Counts(verb, a, c, x && y)
  {
    hide People;
  }

  lemma EntryCounts(v: Served, verb: Verb, protocol: Protocol, upsname: seq<byte>, e: Entry)
    requires !verb.Edit?
    ensures Counts(verb, v, ServeEntry(v, verb, protocol, upsname, e),
            IsReported(Half(v.state, protocol), verb, upsname, e))
  {
    hide Perform, Population, IsReported;
    PerformReportsExactly(Half(v.state, protocol), verb, upsname, e);
  }

  lemma {:induction false} EntriesCount(v: Served, verb: Verb, protocol: Protocol, upsname: seq<byte>, es: seq<Entry>)
    requires !verb.Edit?
    ensures Counts(verb, v, ServeEntries(v, verb, protocol, upsname, es),
            EntriesReported(v, verb, protocol, upsname, es))
    decreases |es|
  {
    hide ServeEntry, IsReported, People;
    if es != [] {
      var w := ServeEntry(v, verb, protocol, upsname, es[0]);
      EntryCounts(v, verb, protocol, upsname, es[0]);
      EntriesCount(w, verb, protocol, upsname, es[1..]);
      CountsCompose(verb, v, w, ServeEntries(w, verb, protocol, upsname, es[1..]),
                    IsReported(Half(v.state, protocol), verb, upsname, es[0]),
                    EntriesReported(w, verb, protocol, upsname, es[1..]));
    }
  }

  lemma {:induction false} SectionsCount(v: Served, verb: Verb, ss: seq<Section>)
    requires !verb.Edit?
    ensures Counts(verb, v, ServeSections(v, verb, ss), SectionsReported(v, verb, ss))
    decreases |ss|
  {
    hide ServeEntries, EntriesReported, People;
    if ss != [] {
      var s, w := ss[0], ServeSection(v, verb, ss[0]);
      if s.protocol.Some? && s.upsname.Some? && s.peers.Some? {
        EntriesCount(v, verb, s.protocol.value, s.upsname.value, s.peers.value);
      }
      SectionsCount(w, verb, ss[1..]);
      CountsCompose(verb, v, w, ServeSections(w, verb, ss[1..]), SectionReported(v, verb, s),
        SectionsReported(w, verb, ss[1..]));
    }
  }

  /** For every request that adds or deletes, on any tables: `success` is never more than the number of servers
      added or removed, and it is that number if and only if every call reports what it does. */
  lemma SuccessIsExact(st: State, r: Request)
    requires !r.verb.Edit?
    ensures var s := Serve(st, r); var change := Moved(r.verb, People(st), People(s.state));
            && change >= s.tally.success
            && (change == s.tally.success <==> SectionsReported(Served(st, Tally(0, 0)), r.verb, r.sections))
  {
    SectionsCount(Served(st, Tally(0, 0)), r.verb, r.sections);
  }

  // ----- When every call reports what it does

  predicate Unique(ups: seq<Upstream>) {
    forall i, j :: 0 <= i < j < |ups| ==> ups[i].name != ups[j].name
  }

  predicate UniqueState(st: State) {
    Unique(st.http.ups) && Unique(st.stream.ups)
  }

  lemma {:induction false} UniqueEntries(v: Served, protocol: Protocol, upsname: seq<byte>, es: seq<Entry>)
    requires UniqueState(v.state)
    ensures EntriesReported(v, Delete, protocol, upsname, es)
    ensures UniqueState(ServeEntries(v, Delete, protocol, upsname, es).state)
    decreases |es|
  {
    hide Perform, Removes, Refuses;
    if es != [] {
      PerformReaches(Half(v.state, protocol), Delete, upsname, es[0]);
      OnlyOneSelected(Half(v.state, protocol).ups, upsname, es[0].backup, EntryFilter(es[0], true));
      UniqueEntries(ServeEntry(v, Delete, protocol, upsname, es[0]), protocol, upsname, es[1..]);
    }
  }

  lemma OnlyOneSelected(ups: seq<Upstream>, upsname: seq<byte>, backup: bool, f: Filter)
    requires Unique(ups)
    ensures DeleteIsReported(ups, upsname, backup, f)
  {
  }

  lemma {:induction false} UniqueSections(v: Served, ss: seq<Section>)
    requires UniqueState(v.state)
    ensures SectionsReported(v, Delete, ss)
    decreases |ss|
  {
    hide ServeEntries, UniqueState, EntriesReported;
    if ss != [] {
      var s := ss[0];
      if s.protocol.Some? && s.upsname.Some? && s.peers.Some? {
        UniqueEntries(v, s.protocol.value, s.upsname.value, s.peers.value);
      }
      UniqueSections(ServeSection(v, Delete, s), ss[1..]);
    }
  }

  /** In particular: a delete request, with unique upstream names. */
  lemma DeleteSuccessIsExact(st: State, ss: seq<Section>)
    requires UniqueState(st)
    ensures var r := Serve(st, Request(Delete, ss)); r.tally.success == People(st) - People(r.state)
  {
    UniqueSections(Served(st, Tally(0, 0)), ss);
    SuccessIsExact(st, Request(Delete, ss));
  }

  predicate Granting(answers: seq<bool>) {
    forall i :: 0 <= i < |answers| ==> answers[i]
  }

  lemma {:induction false} AllGrants(answers: seq<bool>)
    requires Granting(answers)
    ensures Grants(answers) == |answers|
  {
    if answers != [] {
      AllGrants(answers[1..]);
    }
  }

  lemma LaterGranting(answers: seq<bool>)
    ensures answers == [] ==> Later(answers) == []
    ensures Granting(answers) ==> Granting(Later(answers)) && (Later(answers) != [] ==> Granted(answers))
  {
  }

  lemma ClaimGranted(answers: seq<bool>)
    ensures var c := ClaimPeer(answers);
            && (answers == [] ==> c.answers == [])
            && (Granting(answers) ==> Granting(c.answers) && (c.answers != [] ==> c.code == 0))
  {
    LaterGranting(answers);
    LaterGranting(Later(answers));
    LaterGranting(Later(Later(answers)));
    LaterGranting(Later(Later(Later(answers))));
    hide Granting, Later, Granted;
  }

  lemma {:induction false} AddServersGranted(g: Group, addresses: seq<Address>, p: Server, answers: seq<bool>,
        count: int)
    requires count >= 0
    ensures var r := AddServers(g, addresses, p, answers, count);
            && (answers == [] ==> r.answers == [])
            && (Granting(answers) ==> Granting(r.answers) && (r.answers != [] ==> r.code >= 0))
    decreases |addresses|
  {
    hide ClaimPeer, Granting, Prepend;
    ClaimGranted(answers);
    if addresses != [] {
      var c := ClaimPeer(answers);
      AddServersGranted(Prepend(g, p.(name := addresses[0].name)), addresses[1..], p, c.answers, count + 1);
    }
  }

  lemma {:induction false} AddFromGranted(ups: seq<Upstream>, i: nat, upsname: seq<byte>, backup: bool,
        addresses: seq<Address>, p: Server, count: int, answers: seq<bool>)
    requires count >= 0
    ensures var r := AddFrom(ups, i, upsname, backup, addresses, p, count, answers);
            && (answers == [] ==> r.answers == [])
            && (Granting(answers) ==> Granting(r.answers) && (r.answers != [] ==> r.code >= 0))
    decreases |ups| - i
  {
    hide AddServers, Granting, Granted, Later;
    if i < |ups| {
      var t := Target(ups[i], backup);
      if !Selects(ups[i], upsname) {
        AddFromGranted(ups, i + 1, upsname, backup, addresses, p, count, answers);
      } else {
        LaterGranting(answers);
        var g, a := if t.None? then EMPTY else t.value, if t.None? then Later(answers) else answers;
        AddServersGranted(g, addresses, p, a, count);
        var r := AddServers(g, addresses, p, a, count);
        if r.code >= 0 {
          AddFromGranted(ups[i := SetTarget(ups[i], backup, r.group)], i + 1, upsname, backup, addresses, p,
            r.code, r.answers);
        }
      }
    }
  }

  lemma PerformGranted(t: Table, upsname: seq<byte>, e: Entry)
    ensures var r := Perform(t, Add, upsname, e);
            && (t.answers == [] ==> r.answers == [])
            && (Granting(t.answers) ==> Granting(r.answers) && (r.answers != [] ==> IsReported(t, Add, upsname, e)))
  {
    hide AddFrom, Granting;
    if e.server.Some? && e.addresses.Some? {
      AddFromGranted(t.ups, 0, upsname, e.backup, e.addresses.value, NewServer(e), 0, t.answers);
      AddFromReports(t.ups, 0, upsname, e.backup, e.addresses.value, NewServer(e), 0, t.answers);
    }
  }

  predicate GrantingState(st: State) {
    Granting(st.http.answers) && Granting(st.stream.answers)
  }

  /** What was used up stays used up. */
  predicate UsedUp(a: State, b: State) {
    (a.http.answers == [] ==> b.http.answers == []) && (a.stream.answers == [] ==> b.stream.answers == [])
  }

  /** Both allocators have answers left. */
  predicate Leftovers(st: State) {
    st.http.answers != [] && st.stream.answers != []
  }

  lemma {:induction false} GrantedEntries(v: Served, protocol: Protocol, upsname: seq<byte>, es: seq<Entry>)
    requires GrantingState(v.state)
    ensures var st := ServeEntries(v, Add, protocol, upsname, es).state;
            GrantingState(st) && UsedUp(v.state, st)
              && (Leftovers(st) ==> EntriesReported(v, Add, protocol, upsname, es))
    decreases |es|
  {
    hide Perform, Granting, IsReported;
    if es != [] {
      PerformGranted(Half(v.state, protocol), upsname, es[0]);
      GrantedEntries(ServeEntry(v, Add, protocol, upsname, es[0]), protocol, upsname, es[1..]);
    }
  }

  lemma {:induction false} GrantedSections(v: Served, ss: seq<Section>)
    requires GrantingState(v.state)
    ensures var st := ServeSections(v, Add, ss).state;
            GrantingState(st) && UsedUp(v.state, st) && (Leftovers(st) ==> SectionsReported(v, Add, ss))
    decreases |ss|
  {
    hide ServeEntries, EntriesReported, GrantingState;
    if ss != [] {
      var s := ss[0];
      if s.protocol.Some? && s.upsname.Some? && s.peers.Some? {
        GrantedEntries(v, s.protocol.value, s.upsname.value, s.peers.value);
      }
      GrantedSections(ServeSection(v, Add, s), ss[1..]);
    }
  }

  /** In particular: an add request that was refused no memory. All answers were grants, and some are left over. */
  lemma AddSuccessIsExact(st: State, ss: seq<Section>)
    requires GrantingState(st) && Leftovers(Serve(st, Request(Add, ss)).state)
    ensures var r := Serve(st, Request(Add, ss)); r.tally.success == People(r.state) - People(st)
  {
    GrantedSections(Served(st, Tally(0, 0)), ss);
    SuccessIsExact(st, Request(Add, ss));
  }

  // ----- When they do not

  /** An add of two addresses with memory for one peer: it is added, and an error is reported. */
  lemma RefusalHidesServers(n: seq<byte>, g: Group, p: Server, a: Address, b: Address)
    ensures var ups := [Upstream(n, true, g, None)];
            var r := AddFrom(ups, 0, n, false, [a, b], p, 0, [true, true, true, true, false]);
            r.code < 0 && Population(r.ups) > Population(ups)
  {
    var ups, answers := [Upstream(n, true, g, None)], [true, true, true, true, false];
    FourGrants(answers);
    assert NeedsFrom(ups, 0, n, false, 2) == 8 && NeedsForFirst(ups, 0, n, false) == 4;
    AddFromReports(ups, 0, n, false, [a, b], p, 0, answers);
  }

  /** Memory for two peers is not enough for an add of two addresses when the backup group is missing. */
  lemma MissingGroupHidesServers(n: seq<byte>, g: Group, p: Server, a: Address, b: Address)
    ensures var ups := [Upstream(n, true, g, None)];
            var r := AddFrom(ups, 0, n, true, [a, b], p, 0, seq(8, i => true));
            r.code < 0 && Population(r.ups) > Population(ups)
  {
    var ups, answers := [Upstream(n, true, g, None)], seq(8, i => true);
    AllGrants(answers);
    assert NeedsFrom(ups, 0, n, true, 2) == 9 && NeedsForFirst(ups, 0, n, true) == 5;
    AddFromReports(ups, 0, n, true, [a, b], p, 0, answers);
  }

  /** With two upstreams of one name, memory for one peer is not enough for an add of one address. */
  lemma SharedNameHidesAdds(n: seq<byte>, g: Group, h: Group, p: Server, a: Address)
    ensures var ups := [Upstream(n, true, g, None), Upstream(n, true, h, None)];
            var r := AddFrom(ups, 0, n, false, [a], p, 0, [true, true, true, true, false]);
            r.code < 0 && Population(r.ups) > Population(ups)
  {
    var ups, answers := [Upstream(n, true, g, None), Upstream(n, true, h, None)], [true, true, true, true, false];
    FourGrants(answers);
    assert NeedsFrom(ups, 1, n, false, 1) == 4 && NeedsFrom(ups, 0, n, false, 1) == 8
      && NeedsForFirst(ups, 0, n, false) == 4;
    AddFromReports(ups, 0, n, false, [a], p, 0, answers);
  }

  lemma FourGrants(answers: seq<bool>)
    requires answers == [true, true, true, true, false]
    ensures Grants(answers) == 4
  {
    assert [true, false][1..] == [false] && Grants([true, false]) == 1;
    assert [true, true, false][1..] == [true, false] && Grants([true, true, false]) == 2;
    assert [true, true, true, false][1..] == [true, true, false] && Grants([true, true, true, false]) == 3;
    assert answers[1..] == [true, true, true, false];
  }

  /** With two upstreams of one name: a delete that removes a server from the first and ends with the refusal to
      empty the second. */
  lemma SharedNameHidesDeletes(n: seq<byte>, g: Group, h: Group, f: Filter, answers: seq<bool>)
    requires !LeftOne(g.servers, f) && Matching(g.servers, f) > 0 && LeftOne(h.servers, f)
    ensures var ups := [Upstream(n, true, g, None), Upstream(n, true, h, None)];
            var r := DeleteFrom(ups, 0, n, false, f, 0, answers);
            r.code == E_UPS_LEFT_ONE && Population(r.ups) < Population(ups)
  {
    var ups := [Upstream(n, true, g, None), Upstream(n, true, h, None)];
    DeleteFromReports(ups, 0, n, false, f, 0, answers);
    assert Refuses(ups[1], n, false, f) && Removes(ups[0], n, false, f);
  }
}
