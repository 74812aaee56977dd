/**
  What a sequence of requests amounts to.
 */
module RequestLaws {
  import opened Bytes
  import opened Upstreams
  import opened UpstreamLaws
  import opened RegistryLaws
  import opened Reports

  // ----- Deleting again

  /** What a delete makes of an upstream that it gets to. */
  function Pass(u: Upstream, upsname: seq<byte>, backup: bool, f: Filter): Upstream {
    if Selects(u, upsname) && Target(u, backup).Some? then
      SetTarget(u, backup, DeleteGroup(Target(u, backup).value, f))
    else u
  }

  lemma {:induction false} DeletePass(ups: seq<Upstream>, i: nat, upsname: seq<byte>, backup: bool, f: Filter,
        count: int, answers: seq<bool>)
    requires i <= |ups|
    ensures var r := DeleteFrom(ups, i, upsname, backup, f, count, answers);
            && |r.ups| == |ups| && r.answers == answers
            && forall j :: 0 <= j < |ups| ==>
                 r.ups[j] == if i <= j < Stop(ups, i, upsname, backup, f) then Pass(ups[j], upsname, backup, f)
                             else ups[j]
    decreases |ups| - i
  {
    hide DeleteFrom, Refuses, DeleteGroup, SetTarget;
    if i == |ups| || Refuses(ups[i], upsname, backup, f) {
      DeleteEnds(ups, i, upsname, backup, f, count, answers);
    } else {
      var u := Lighter(ups[i], upsname, backup, f);
      DeleteStep(ups, i, upsname, backup, f, count, answers);
      StopSame(ups, ups[i := u], i + 1, upsname, backup, f);
      DeletePass(ups[i := u], i + 1, upsname, backup, f, count + (Size(ups[i]) - Size(u)), answers);
    }
  }

  lemma GroupSettles(g: Group, f: Filter)
    ensures var h := DeleteGroup(DeleteGroup(g, f), f);
            !LeftOne(g.servers, f) && !LeftOne(DeleteGroup(g, f).servers, f) ==>
              !LeftOne(h.servers, f) && DeleteGroup(h, f) == h
  {
    var s := g.servers;
    TwoDeletesSettle(s, f);
    if !LeftOne(s, f) && !LeftOne(Survivors(s, f), f) {
      DeleteOutcome(s, f);
      DeleteOutcome(Survivors(s, f), f);
      LeftOneMatches(Deleted(Deleted(s, f), f), f);
    }
  }

  lemma LeftOneMatches(s: seq<Server>, f: Filter)
    ensures LeftOne(s, f) ==> Matching(s, f) == 1
  {
  }

  /** An upstream that two deletes get to without being ended by it is settled. */
  lemma PassTwice(u: Upstream, upsname: seq<byte>, backup: bool, f: Filter)
    ensures var v := Pass(u, upsname, backup, f); var w := Pass(v, upsname, backup, f);
            !Refuses(u, upsname, backup, f) && !Refuses(v, upsname, backup, f) ==>
              !Refuses(w, upsname, backup, f) && Pass(w, upsname, backup, f) == w
  {
    hide DeleteGroup, LeftOne;
    if Target(u, backup).Some? {
      GroupSettles(Target(u, backup).value, f);
    }
  }

  lemma StopIs(ups: seq<Upstream>, k: nat, upsname: seq<byte>, backup: bool, f: Filter)
    requires k <= |ups| && (k < |ups| ==> Refuses(ups[k], upsname, backup, f))
    requires forall j :: 0 <= j < k ==> !Refuses(ups[j], upsname, backup, f)
    ensures Stop(ups, 0, upsname, backup, f) == k
  {
  }

  /** Two identical deletes reach a fixed point, on any table: a third changes nothing and removes nothing. */
  lemma TwoDeletesSettleFrom(ups: seq<Upstream>, upsname: seq<byte>, backup: bool, f: Filter, answers: seq<bool>)
    ensures var ups1 := DeleteFrom(ups, 0, upsname, backup, f, 0, answers).ups;
            var ups2 := DeleteFrom(ups1, 0, upsname, backup, f, 0, answers).ups;
            var r3 := DeleteFrom(ups2, 0, upsname, backup, f, 0, answers);
            r3.ups == ups2 && r3.code <= 0
  {
    hide DeleteFrom, Pass, Refuses, Stop;
    DeletePass(ups, 0, upsname, backup, f, 0, answers);
    var ups1 := DeleteFrom(ups, 0, upsname, backup, f, 0, answers).ups;
    DeletePass(ups1, 0, upsname, backup, f, 0, answers);
    var ups2 := DeleteFrom(ups1, 0, upsname, backup, f, 0, answers).ups;
    DeletePass(ups2, 0, upsname, backup, f, 0, answers);
    var stop := Stop(ups1, 0, upsname, backup, f);
    forall j | 0 <= j < stop
      ensures !Refuses(ups2[j], upsname, backup, f) && Pass(ups2[j], upsname, backup, f) == ups2[j]
    {
      PassTwice(ups[j], upsname, backup, f);
    }
    StopIs(ups2, stop, upsname, backup, f);
    DeleteFromReports(ups2, 0, upsname, backup, f, 0, answers);
  }

  /** The same for calls. */
  lemma TwoDeletesSettleAt(t: Table, upsname: seq<byte>, e: Entry)
    ensures var r1 := Perform(t, Delete, upsname, e);
            var r2 := Perform(After(t, r1), Delete, upsname, e);
            var r3 := Perform(After(t, r2), Delete, upsname, e);
            r3.ups == r2.ups && r3.code <= 0
  {
    hide DeleteFrom;
    var f := EntryFilter(e, true);
    DeletePass(t.ups, 0, upsname, e.backup, f, 0, t.answers);
    DeletePass(DeleteFrom(t.ups, 0, upsname, e.backup, f, 0, t.answers).ups, 0, upsname, e.backup, f, 0, t.answers);
    TwoDeletesSettleFrom(t.ups, upsname, e.backup, f, t.answers);
  }

  // ----- Adding and deleting again

  /** The upstream has other servers only: the group that is asked for is there and not empty, and the delete is
      about none of them. */
  predicate OthersOnly(u: Upstream, d: Entry) {
    var s := ServersAt(u, d.backup);
    s != [] && forall i :: 0 <= i < |s| ==> !Doomed(d, s[i])
  }

  /** A delete with the entry `d` is about all servers that an add with `e` puts in: it has the server text, or the
      address if that is the only one, or both. */
  predicate Undoes(d: Entry, e: Entry) {
    && d.backup == e.backup && (d.down == Some(true) <==> e.down == Some(true))
    && (d.server.Some? || d.srvname.Some?) && (d.server.Some? ==> d.server == e.server)
    && e.addresses.Some?
    && (d.srvname.Some? ==>
          forall i :: 0 <= i < |e.addresses.value| ==> e.addresses.value[i].name == d.srvname.value)
  }

  /** The upstream as it was, with `single` as it should be. */
  function Restored(u: Upstream, backup: bool): Upstream
    requires Target(u, backup).Some?
  {
    var g := Target(u, backup).value;
    SetTarget(u, backup, g.(single := g.number == 1))
  }

  /** `v` is the upstream after the loop over the addresses. */
  ghost predicate Extended(u: Upstream, v: Upstream, backup: bool, addresses: seq<Address>, p: Server) {
    && Target(u, backup).Some?
    && exists a, c :: c >= 0 && v == SetTarget(u, backup, AddServers(Target(u, backup).value, addresses, p, a, c).group)
  }

  lemma ExtendedBy(u: Upstream, backup: bool, addresses: seq<Address>, p: Server, answers: seq<bool>, count: int)
    requires Target(u, backup).Some? && GoodUpstream(u) && p.weight >= 1 && count >= 0
    ensures var r := AddServers(Target(u, backup).value, addresses, p, answers, count);
            var v := SetTarget(u, backup, r.group);
            && Extended(u, v, backup, addresses, p) && GoodUpstream(v) && (r.code >= 0 ==> r.code >= count)
            && (r.code >= 0 ==> Size(v) == Size(u) + |addresses|)
  {
    hide AddServers, Good, Weights;
    AddServersFacts(Target(u, backup).value, addresses, p, answers, count);
  }

  /** An upstream that the call does not get to is as good as one for which the memory did not last. */
  lemma ExtendedByNothing(u: Upstream, backup: bool, addresses: seq<Address>, p: Server)
    requires Target(u, backup).Some?
    ensures Extended(u, u, backup, addresses, p)
  {
    var g := Target(u, backup).value;
    assert AddServers(g, addresses, p, [], 0).group == g;
    assert u == SetTarget(u, backup, g);
  }

  /** What an add makes of the upstreams when no group is missing. */
  lemma {:induction false} AddPass(ups: seq<Upstream>, i: nat, upsname: seq<byte>, backup: bool,
        addresses: seq<Address>, p: Server, count: int, answers: seq<bool>)
    requires i <= |ups| && GoodUps(ups) && p.weight >= 1 && count >= 0
    requires forall j :: i <= j < |ups| && Selects(ups[j], upsname) ==> Target(ups[j], backup).Some?
    ensures var r := AddFrom(ups, i, upsname, backup, addresses, p, count, answers);
            && |r.ups| == |ups|
            && (forall j :: 0 <= j < |ups| && (j < i || !Selects(ups[j], upsname)) ==> r.ups[j] == ups[j])
            && (forall j :: i <= j < |ups| && Selects(ups[j], upsname) ==>
                  Extended(ups[j], r.ups[j], backup, addresses, p))
            && (forall j :: i <= j < |ups| && Selects(ups[j], upsname) && r.code >= 0 ==>
                  Size(r.ups[j]) == Size(ups[j]) + |addresses|)
    decreases |ups| - i
  {
    hide AddServers, Extended, GoodUpstream, Size, SetTarget, Target;
    if i < |ups| {
      if !Selects(ups[i], upsname) {
        AddPass(ups, i + 1, upsname, backup, addresses, p, count, answers);
      } else {
        ExtendedBy(ups[i], backup, addresses, p, answers, count);
        var r := AddServers(Target(ups[i], backup).value, addresses, p, answers, count);
        var ups' := ups[i := SetTarget(ups[i], backup, r.group)];
        if r.code >= 0 {
          AddPass(ups', i + 1, upsname, backup, addresses, p, r.code, r.answers);
        } else {
          forall j | i < j < |ups| && Selects(ups[j], upsname)
            ensures Extended(ups[j], ups[j], backup, addresses, p)
          {
            ExtendedByNothing(ups[j], backup, addresses, p);
          }
        }
      }
    }
  }

  /** One upstream, extended and passed by two deletes. */
  lemma ExtendedRestored(u: Upstream, v: Upstream, upsname: seq<byte>, backup: bool, addresses: seq<Address>, p: Server,
        f: Filter)
    requires GoodUpstream(u) && Selects(u, upsname) && Extended(u, v, backup, addresses, p) && p.weight >= 1
    requires Target(u, backup).value.servers != [] && Matching(Target(u, backup).value.servers, f) == 0
    requires forall i :: 0 <= i < |addresses| ==> Matches(p.(name := addresses[i].name), f)
    ensures var w := Pass(v, upsname, backup, f); var before := if Size(v) == Size(u) then u else Restored(u, backup);
            && !Refuses(v, upsname, backup, f) && !Refuses(w, upsname, backup, f)
            && Pass(w, upsname, backup, f) == before && (|addresses| <= 1 ==> w == before)
  {
    hide AddServers, DeleteGroup, LeftOne, Good, Matching, Matches;
    var g := Target(u, backup).value;
    var a, c :| c >= 0 && v == SetTarget(u, backup, AddServers(g, addresses, p, a, c).group);
    AddThenDeleteTwiceOnGroup(g, addresses, p, a, c, f);
    assert SetTarget(u, backup, g) == u;
  }

  lemma {:induction false} SameSizes(a: seq<Upstream>, b: seq<Upstream>)
    requires |a| == |b| && forall j :: 0 <= j < |a| ==> Size(a[j]) == Size(b[j])
    ensures Population(a) == Population(b)
  {
    hide Size;
    if a != [] {
      SameSizes(a[1..], b[1..]);
    }
  }

  /** A delete that no upstream refuses passes all of them and reports what it removes. */
  lemma UnrefusedDelete(ups: seq<Upstream>, upsname: seq<byte>, backup: bool, f: Filter, answers: seq<bool>)
    requires forall j :: 0 <= j < |ups| ==> !Refuses(ups[j], upsname, backup, f)
    ensures var r := DeleteFrom(ups, 0, upsname, backup, f, 0, answers);
            && |r.ups| == |ups| && r.code == Population(ups) - Population(r.ups) >= 0
            && forall j :: 0 <= j < |ups| ==> r.ups[j] == Pass(ups[j], upsname, backup, f)
  {
    hide DeleteFrom, Pass, Refuses, Stop, Population;
    StopIs(ups, |ups|, upsname, backup, f);
    DeletePass(ups, 0, upsname, backup, f, 0, answers);
    DeleteFromReports(ups, 0, upsname, backup, f, 0, answers);
  }

  /** The upstream `u` as it was before the add that has made `u1` of it. */
  function AsItWas(u: Upstream, u1: Upstream, backup: bool): Upstream {
    if Size(u1) == Size(u) || Target(u, backup).None? then u else Restored(u, backup)
  }

  /** Every upstream is as it was before the add. */
  predicate AllRestored(ups: seq<Upstream>, ups1: seq<Upstream>, after: seq<Upstream>, backup: bool) {
    |ups1| == |after| == |ups| && forall j :: 0 <= j < |ups| ==> after[j] == AsItWas(ups[j], ups1[j], backup)
  }

  /** `w`, which one delete has made of `u1`, is passed by a second one and is as it was; and before that already if
      there was only one address. */
  predicate PassesBack(u: Upstream, u1: Upstream, w: Upstream, upsname: seq<byte>, backup: bool, f: Filter,
        addresses: nat)
  {
    && !Refuses(w, upsname, backup, f) && Pass(w, upsname, backup, f) == AsItWas(u, u1, backup)
    && (addresses <= 1 ==> w == AsItWas(u, u1, backup))
  }

  lemma OneRestored(t: Table, j: nat, upsname: seq<byte>, e: Entry, d: Entry)
    requires t.configured && GoodUps(t.ups) && e.server.Some? && Undoes(d, e) && j < |t.ups|
    requires forall j :: 0 <= j < |t.ups| && Named(t.ups[j], upsname) ==> OthersOnly(t.ups[j], d)
    ensures var f := EntryFilter(d, true); var u, ups1 := t.ups[j], Perform(t, Add, upsname, e).ups;
            && |ups1| == |t.ups|
            && !Refuses(ups1[j], upsname, e.backup, f)
            && PassesBack(u, ups1[j], Pass(ups1[j], upsname, e.backup, f), upsname, e.backup, f, |e.addresses.value|)
  {
    hide AddFrom, Extended, Refuses, Size, Good, Matching, Matches, NewServer, EntryFilter, Doomed, Pass;
    var p, f := NewServer(e), EntryFilter(d, true);
    forall j | 0 <= j < |t.ups| && Selects(t.ups[j], upsname) ensures Target(t.ups[j], e.backup).Some? {
      NamedSelects(t.ups[j], upsname);
      TargetServers(t.ups[j], e.backup);
    }
    NewServerFields(e);
    AddPass(t.ups, 0, upsname, e.backup, e.addresses.value, p, 0, t.answers);
    if Selects(t.ups[j], upsname) {
      NamedSelects(t.ups[j], upsname);
      TargetServers(t.ups[j], e.backup);
      NoneDoomed(d, ServersAt(t.ups[j], e.backup));
      UndoneMatch(d, e);
      ExtendedRestored(t.ups[j], Perform(t, Add, upsname, e).ups[j], upsname, e.backup, e.addresses.value, p, f);
    } else {
      Unselected(t.ups[j], upsname, e.backup, f);
    }
  }

  lemma NewServerFields(e: Entry)
    requires e.server.Some?
    ensures var p := NewServer(e);
            p.server == e.server.value && p.weight >= 1 && p.down == if e.down == Some(true) then 1 else 0
  {
  }

  lemma NoneDoomed(d: Entry, s: seq<Server>)
    requires forall i :: 0 <= i < |s| ==> !Doomed(d, s[i])
    ensures Matching(s, EntryFilter(d, true)) == 0
  {
    hide Doomed, Matches;
    forall i | 0 <= i < |s| ensures !Matches(s[i], EntryFilter(d, true)) {
      DoomedMatches(d, s[i]);
    }
    NoMatch(s, EntryFilter(d, true));
  }

  lemma UndoneMatch(d: Entry, e: Entry)
    requires e.server.Some? && Undoes(d, e)
    ensures var a, p := e.addresses.value, NewServer(e);
            forall i :: 0 <= i < |a| ==> Matches(p.(name := a[i].name), EntryFilter(d, true))
  {
    var a, p := e.addresses.value, NewServer(e);
    NewServerFields(e);
    forall i | 0 <= i < |a| ensures Matches(p.(name := a[i].name), EntryFilter(d, true)) {
      DoomedMatches(d, p.(name := a[i].name));
    }
  }

  lemma Unselected(u: Upstream, upsname: seq<byte>, backup: bool, f: Filter)
    requires !Selects(u, upsname)
    ensures !Refuses(u, upsname, backup, f) && Pass(u, upsname, backup, f) == u
  {
  }

  /** A server text is added, with any number of addresses and also when the memory does not last, and deleted twice,
      by its text or by its address, where the selected upstreams have other servers only. Everything is as before;
      but `single` is right in the groups that got a server. The two deletes report together what has been added, and
      so does the add unless it reports an error. With one address, one delete is enough. */
  lemma AddDeleteDelete(t: Table, upsname: seq<byte>, e: Entry, d: Entry)
    requires t.configured && GoodUps(t.ups) && e.server.Some? && Undoes(d, e)
    requires forall j :: 0 <= j < |t.ups| && Named(t.ups[j], upsname) ==> OthersOnly(t.ups[j], d)
    ensures var r1 := Perform(t, Add, upsname, e);
            var r2 := Perform(After(t, r1), Delete, upsname, d);
            var r3 := Perform(After(t, r2), Delete, upsname, d);
            && AllRestored(t.ups, r1.ups, r3.ups, e.backup)
            && (|e.addresses.value| <= 1 ==> AllRestored(t.ups, r1.ups, r2.ups, e.backup))
            && Gain(r2.code) + Gain(r3.code) == Population(r1.ups) - Population(t.ups)
            && (r1.code >= 0 ==> Gain(r2.code) + Gain(r3.code) == r1.code)
  {
    hide AddFrom, DeleteFrom, Pass, Refuses, OthersOnly, Good, Size, Population, Restored, EntryFilter;
    var f := EntryFilter(d, true);
    var r1 := Perform(t, Add, upsname, e);
    forall j | 0 <= j < |t.ups|
      ensures |r1.ups| == |t.ups| && !Refuses(r1.ups[j], upsname, e.backup, f)
      ensures PassesBack(t.ups[j], r1.ups[j], Pass(r1.ups[j], upsname, e.backup, f), upsname, e.backup, f,
                |e.addresses.value|)
    {
      OneRestored(t, j, upsname, e, d);
    }
    AddFromReports(t.ups, 0, upsname, e.backup, e.addresses.value, NewServer(e), 0, t.answers);
    SameLength(t, upsname, e);
    UnrefusedDelete(r1.ups, upsname, e.backup, f, r1.answers);
    var r2 := Perform(After(t, r1), Delete, upsname, d);
    UnrefusedDelete(r2.ups, upsname, e.backup, f, r2.answers);
    var r3 := Perform(After(t, r2), Delete, upsname, d);
    forall j | 0 <= j < |t.ups| ensures Size(r3.ups[j]) == Size(t.ups[j]) {
      RestoredSize(t.ups[j], r1.ups[j], e.backup);
    }
    SameSizes(r3.ups, t.ups);
  }

  lemma SameLength(t: Table, upsname: seq<byte>, e: Entry)
    ensures |Perform(t, Add, upsname, e).ups| == |t.ups|
  {
    PerformReaches(t, Add, upsname, e);
  }

  lemma RestoredSize(u: Upstream, u1: Upstream, backup: bool)
    ensures Size(AsItWas(u, u1, backup)) == Size(u)
  {
  }

  // ----- Editing again

  /** An edit leaves what is before its cursor alone. */
  lemma {:induction false} EditFromPrefix(ups: seq<Upstream>, i: nat, upsname: seq<byte>, backup: bool, f: Filter,
        c: Change, count: int, answers: seq<bool>)
    ensures EditFrom(ups, i, upsname, backup, f, c, count, answers).answers == answers
    ensures var r := EditFrom(ups, i, upsname, backup, f, c, count, answers).ups;
            |r| == |ups| && forall j :: 0 <= j < i && j < |ups| ==> r[j] == ups[j]
    decreases |ups| - i
  {
    hide EditGroup, Matching;
    if i < |ups| {
      var o := Target(ups[i], backup);
      if !Selects(ups[i], upsname) || o.None? {
        EditFromPrefix(ups, i + 1, upsname, backup, f, c, count, answers);
      } else {
        EditFromPrefix(ups[i := SetTarget(ups[i], backup, EditGroup(o.value, f, c))], i + 1, upsname, backup, f, c,
                       count + Matching(o.value.servers, f), answers);
      }
    }
  }

  /** Editing again, with names shared or not, changes nothing and reports the same count. */
  lemma {:induction false} EditFromTwice(ups: seq<Upstream>, i: nat, upsname: seq<byte>, backup: bool, f: Filter,
        c: Change, count: int, answers: seq<bool>)
    requires f.down.None?
    ensures var r := EditFrom(ups, i, upsname, backup, f, c, count, answers);
            EditFrom(r.ups, i, upsname, backup, f, c, count, answers) == r
    decreases |ups| - i
  {
    hide EditGroup, Matching;
    if i < |ups| {
      var o := Target(ups[i], backup);
      if !Selects(ups[i], upsname) || o.None? {
        EditFromTwice(ups, i + 1, upsname, backup, f, c, count, answers);
        EditFromPrefix(ups, i + 1, upsname, backup, f, c, count, answers);
      } else {
        var g := EditGroup(o.value, f, c);
        var ups' := ups[i := SetTarget(ups[i], backup, g)];
        var n := count + Matching(o.value.servers, f);
        EditFromTwice(ups', i + 1, upsname, backup, f, c, n, answers);
        EditFromPrefix(ups', i + 1, upsname, backup, f, c, n, answers);
        EditTwice(o.value, f, c);
        var r := EditFrom(ups', i + 1, upsname, backup, f, c, n, answers).ups;
        assert r[i] == ups'[i];
        assert r[i := SetTarget(r[i], backup, g)] == r;
      }
    }
  }

  /** The same for a whole call. */
  lemma EditAgain(t: Table, upsname: seq<byte>, e: Entry)
    ensures var r := Perform(t, Edit, upsname, e);
            Perform(After(t, r), Edit, upsname, e) == r
  {
    EditFromPrefix(t.ups, 0, upsname, e.backup, EntryFilter(e, false), EntryChange(e), 0, t.answers);
    EditFromTwice(t.ups, 0, upsname, e.backup, EntryFilter(e, false), EntryChange(e), 0, t.answers);
  }
}
