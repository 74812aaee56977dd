/**
  What a request as a whole amounts to: its calls in their order, the counters
  that report them, and what it can reach.
 */
module Tallies {
  import opened Bytes
  import opened Upstreams
  import UpstreamLaws
  import opened RegistryLaws
  import opened Reports

  // ----- The counters

  /** What the calls for the entries of a section return, each in the state that the ones before it leave. */
  function EntryCodes(v: Served, verb: Verb, protocol: Protocol, upsname: seq<byte>, es: seq<Entry>): seq<int>
    decreases |es|
  {
    if es == [] then []
    else [Perform(Half(v.state, protocol), verb, upsname, es[0]).code]
         + EntryCodes(ServeEntry(v, verb, protocol, upsname, es[0]), verb, protocol, upsname, es[1..])
  }

  predicate Incomplete(s: Section) {
    s.protocol.None? || s.upsname.None? || s.peers.None?
  }

  /** A section that lacks something counts as one entry without a gain. */
  function SectionCodes(v: Served, verb: Verb, s: Section): seq<int> {
    if Incomplete(s) then [0] else EntryCodes(v, verb, s.protocol.value, s.upsname.value, s.peers.value)
  }

  function Codes(v: Served, verb: Verb, ss: seq<Section>): seq<int>
    decreases |ss|
  {
    if ss == [] then [] else SectionCodes(v, verb, ss[0]) + Codes(ServeSection(v, verb, ss[0]), verb, ss[1..])
  }

  function Gains(codes: seq<int>): nat {
    if codes == [] then 0 else Gain(codes[0]) + Gains(codes[1..])
  }

  /** How many reported no gain. */
  function Gainless(codes: seq<int>): nat {
    if codes == [] then 0 else (if codes[0] > 0 then 0 else 1) + Gainless(codes[1..])
  }

  /** How many entries there are, and sections that lack something. */
  function Parts(ss: seq<Section>): nat {
    if ss == [] then 0 else (if Incomplete(ss[0]) then 1 else |ss[0].peers.value|) + Parts(ss[1..])
  }

  lemma {:induction false} GainsOfSum(a: seq<int>, b: seq<int>)
    ensures Gains(a + b) == Gains(a) + Gains(b) && Gainless(a + b) == Gainless(a) + Gainless(b)
  {
    if a == [] {
      assert a + b == b;
    } else {
      assert (a + b)[1..] == a[1..] + b;
      GainsOfSum(a[1..], b);
    }
  }

  /** The counters have grown by what the codes say. */
  predicate Counted(before: Tally, after: Tally, codes: seq<int>) {
    after.success == before.success + Gains(codes) && after.failed == before.failed + Gainless(codes)
  }

  lemma CountedOne(t: Tally, code: int)
    ensures Counted(t, Count(t, code), [code])
  {
    assert [code][1..] == [];
  }

  lemma CountedMore(a: Tally, b: Tally, c: Tally, x: seq<int>, y: seq<int>)
    requires Counted(a, b, x) && Counted(b, c, y)
    ensures Counted(a, c, x + y)
  {
    GainsOfSum(x, y);
  }

  lemma {:induction false} EntriesCounted(v: Served, verb: Verb, protocol: Protocol, upsname: seq<byte>, es: seq<Entry>)
    ensures var codes := EntryCodes(v, verb, protocol, upsname, es);
            |codes| == |es| && Counted(v.tally, ServeEntries(v, verb, protocol, upsname, es).tally, codes)
    decreases |es|
  {
    hide Perform, Counted, Count;
    if es == [] {
      CountedNothing(v.tally);
    } else {
      var w := ServeEntry(v, verb, protocol, upsname, es[0]);
      var code := Perform(Half(v.state, protocol), verb, upsname, es[0]).code;
      CountedOne(v.tally, code);
      EntriesCounted(w, verb, protocol, upsname, es[1..]);
      CountedMore(v.tally, w.tally, ServeEntries(w, verb, protocol, upsname, es[1..]).tally, [code],
        EntryCodes(w, verb, protocol, upsname, es[1..]));
    }
  }

  lemma CountedNothing(t: Tally)
    ensures Counted(t, t, [])
  {
  }

  lemma {:induction false} SectionsCounted(v: Served, verb: Verb, ss: seq<Section>)
    ensures var codes := Codes(v, verb, ss);
            |codes| == Parts(ss) && Counted(v.tally, ServeSections(v, verb, ss).tally, codes)
    decreases |ss|
  {
    hide ServeEntries, EntryCodes, Counted, Count;
    if ss == [] {
      CountedNothing(v.tally);
    } else {
      var s, w := ss[0], ServeSection(v, verb, ss[0]);
      if Incomplete(s) {
        CountedOne(v.tally, 0);
      } else {
        EntriesCounted(v, verb, s.protocol.value, s.upsname.value, s.peers.value);
      }
      SectionsCounted(w, verb, ss[1..]);
      CountedMore(v.tally, w.tally, ServeSections(w, verb, ss[1..]).tally, SectionCodes(v, verb, s),
        Codes(w, verb, ss[1..]));
    }
  }

  /** Every entry, and every section that lacks something, is counted once: with its gain in `success`, or else in
      `failed`. */
  lemma TallyIsExact(st: State, r: Request)
    ensures var codes := Codes(Served(st, Tally(0, 0)), r.verb, r.sections);
            && |codes| == Parts(r.sections)
            && Serve(st, r).tally == Tally(Gains(codes), Gainless(codes))
  {
    SectionsCounted(Served(st, Tally(0, 0)), r.verb, r.sections);
  }

  // ----- The order

  lemma {:induction false} EntriesInTurn(v: Served, verb: Verb, protocol: Protocol, upsname: seq<byte>, a: seq<Entry>,
        b: seq<Entry>)
    ensures ServeEntries(v, verb, protocol, upsname, a + b)
            == ServeEntries(ServeEntries(v, verb, protocol, upsname, a), verb, protocol, upsname, b)
    decreases |a|
  {
    hide ServeEntry;
    if a == [] {
      assert a + b == b;
    } else {
      assert (a + b)[1..] == a[1..] + b;
      EntriesInTurn(ServeEntry(v, verb, protocol, upsname, a[0]), verb, protocol, upsname, a[1..], b);
    }
  }

  lemma {:induction false} SectionsInTurn(v: Served, verb: Verb, a: seq<Section>, b: seq<Section>)
    ensures ServeSections(v, verb, a + b) == ServeSections(ServeSections(v, verb, a), verb, b)
    decreases |a|
  {
    hide ServeSection;
    if a == [] {
      assert a + b == b;
    } else {
      assert (a + b)[1..] == a[1..] + b;
      SectionsInTurn(ServeSection(v, verb, a[0]), verb, a[1..], b);
    }
  }

  /** A request is its first part, and then the rest on what that leaves. */
  lemma InTurn(st: State, verb: Verb, a: seq<Section>, b: seq<Section>)
    ensures Serve(st, Request(verb, a + b)).state == Serve(Serve(st, Request(verb, a)).state, Request(verb, b)).state
  {
    SectionsInTurn(Served(st, Tally(0, 0)), verb, a, b);
    var w := Serve(st, Request(verb, a));
    SameState(w, Served(w.state, Tally(0, 0)), verb, b);
  }

  lemma {:induction false} SameEntriesState(v: Served, w: Served, verb: Verb, protocol: Protocol, upsname: seq<byte>,
        es: seq<Entry>)
    requires v.state == w.state
    ensures ServeEntries(v, verb, protocol, upsname, es).state == ServeEntries(w, verb, protocol, upsname, es).state
    decreases |es|
  {
    hide Perform;
    if es != [] {
      SameEntriesState(ServeEntry(v, verb, protocol, upsname, es[0]), ServeEntry(w, verb, protocol, upsname, es[0]),
        verb, protocol, upsname, es[1..]);
    }
  }

  lemma {:induction false} SameState(v: Served, w: Served, verb: Verb, ss: seq<Section>)
    requires v.state == w.state
    ensures ServeSections(v, verb, ss).state == ServeSections(w, verb, ss).state
    decreases |ss|
  {
    hide ServeEntries;
    if ss != [] {
      if !Incomplete(ss[0]) {
        SameEntriesState(v, w, verb, ss[0].protocol.value, ss[0].upsname.value, ss[0].peers.value);
      }
      SameState(ServeSection(v, verb, ss[0]), ServeSection(w, verb, ss[0]), verb, ss[1..]);
    }
  }

  /** A request with one entry makes the call for that entry, in the table of its protocol. */
  lemma OneCall(st: State, verb: Verb, upsname: seq<byte>, e: Entry)
    ensures var s := Serve(st, Request(verb, [Section(Some(Http), Some(upsname), Some([e]))])).state;
            s.http == After(st.http, Perform(st.http, verb, upsname, e)) && s.stream == st.stream
    ensures var s := Serve(st, Request(verb, [Section(Some(Stream), Some(upsname), Some([e]))])).state;
            s.stream == After(st.stream, Perform(st.stream, verb, upsname, e)) && s.http == st.http
  {
    hide Perform;
    assert [e][1..] == [] && forall s: Section :: [s][1..] == [];
    forall p: Protocol ensures
      var v := Served(st, Tally(0, 0));
      Serve(st, Request(verb, [Section(Some(p), Some(upsname), Some([e]))])) == ServeEntry(v, verb, p, upsname, e)
    {
      var v := Served(st, Tally(0, 0));
      assert ServeEntries(v, verb, p, upsname, [e]) == ServeEntry(v, verb, p, upsname, e);
      var s := Section(Some(p), Some(upsname), Some([e]));
      assert [s][1..] == [];
      assert ServeSection(v, verb, s) == ServeEntry(v, verb, p, upsname, e);
      assert ServeSections(v, verb, [s]) == ServeSections(ServeSection(v, verb, s), verb, []);
    }
  }

  // ----- What a request reaches

  /** No section of the request is about the upstream. */
  predicate Unmentioned(u: Upstream, protocol: Protocol, ss: seq<Section>) {
    forall i :: 0 <= i < |ss| ==> !(ss[i].protocol == Some(protocol) && ss[i].upsname == Some(u.name))
  }

  /** The upstreams of the protocol that have no zone or are not mentioned are the same. */
  predicate Spares(a: seq<Upstream>, b: seq<Upstream>, protocol: Protocol, ss: seq<Section>) {
    && |a| == |b|
    && forall j :: 0 <= j < |a| ==>
         b[j].name == a[j].name && b[j].zoned == a[j].zoned
         && (!a[j].zoned || Unmentioned(a[j], protocol, ss) ==> b[j] == a[j])
  }

  predicate SparesBoth(a: State, b: State, ss: seq<Section>) {
    Spares(a.http.ups, b.http.ups, Http, ss) && Spares(a.stream.ups, b.stream.ups, Stream, ss)
  }

  lemma {:induction false} EntriesReach(v: Served, verb: Verb, protocol: Protocol, upsname: seq<byte>, es: seq<Entry>)
    ensures var s := Section(Some(protocol), Some(upsname), Some(es));
            SparesBoth(v.state, ServeEntries(v, verb, protocol, upsname, es).state, [s])
    decreases |es|
  {
    hide Perform, Unmentioned;
    if es != [] {
      var s := Section(Some(protocol), Some(upsname), Some(es));
      var rest := s.(peers := Some(es[1..]));
      PerformReaches(Half(v.state, protocol), verb, upsname, es[0]);
      EntriesReach(ServeEntry(v, verb, protocol, upsname, es[0]), verb, protocol, upsname, es[1..]);
      forall u: Upstream, p: Protocol ensures Unmentioned(u, p, [s]) <==> Unmentioned(u, p, [rest])
        ensures Unmentioned(u, protocol, [s]) ==> u.name != upsname
      {
        OneMention(u, p, s);
        OneMention(u, p, rest);
        OneMention(u, protocol, s);
      }
    }
  }

  lemma OneMention(u: Upstream, p: Protocol, s: Section)
    ensures Unmentioned(u, p, [s]) <==> !(s.protocol == Some(p) && s.upsname == Some(u.name))
  {
    assert [s][0] == s;
  }

  lemma MentionRest(u: Upstream, p: Protocol, ss: seq<Section>)
    requires ss != []
    ensures Unmentioned(u, p, ss) <==> Unmentioned(u, p, [ss[0]]) && Unmentioned(u, p, ss[1..])
  {
    OneMention(u, p, ss[0]);
    if Unmentioned(u, p, [ss[0]]) && Unmentioned(u, p, ss[1..]) {
      forall i | 0 <= i < |ss| ensures !(ss[i].protocol == Some(p) && ss[i].upsname == Some(u.name)) {
        assert i > 0 ==> ss[i] == ss[1..][i - 1];
      }
    }
  }

  lemma {:induction false} SectionsReach(v: Served, verb: Verb, ss: seq<Section>)
    ensures SparesBoth(v.state, ServeSections(v, verb, ss).state, ss)
    decreases |ss|
  {
    hide ServeEntries, Unmentioned;
    if ss != [] {
      var s, w := ss[0], ServeSection(v, verb, ss[0]);
      if !Incomplete(s) {
        EntriesReach(v, verb, s.protocol.value, s.upsname.value, s.peers.value);
      }
      SectionsReach(w, verb, ss[1..]);
      forall u: Upstream, p: Protocol
        ensures Unmentioned(u, p, ss) <==> Unmentioned(u, p, [s]) && Unmentioned(u, p, ss[1..])
      {
        MentionRest(u, p, ss);
      }
      forall j, p: Protocol | 0 <= j < |v.state.http.ups|
        ensures Unmentioned(v.state.http.ups[j], p, ss[1..]) <==> Unmentioned(w.state.http.ups[j], p, ss[1..])
      {
        SameMention(v.state.http.ups[j], w.state.http.ups[j], p, ss[1..]);
      }
      forall j, p: Protocol | 0 <= j < |v.state.stream.ups|
        ensures Unmentioned(v.state.stream.ups[j], p, ss[1..]) <==> Unmentioned(w.state.stream.ups[j], p, ss[1..])
      {
        SameMention(v.state.stream.ups[j], w.state.stream.ups[j], p, ss[1..]);
      }
    }
  }

  lemma SameMention(u: Upstream, w: Upstream, p: Protocol, ss: seq<Section>)
    requires u.name == w.name
    ensures Unmentioned(u, p, ss) <==> Unmentioned(w, p, ss)
  {
  }

  /** A request leaves every upstream alone that has no zone or that no section of its protocol mentions. */
  lemma RequestReaches(st: State, r: Request)
    ensures SparesBoth(st, Serve(st, r).state, r.sections)
  {
    SectionsReach(Served(st, Tally(0, 0)), r.verb, r.sections);
  }

  // ----- The errors

  /** The call has all it needs, and there is something to change. */
  predicate Made(t: Table, verb: Verb, e: Entry) {
    t.configured && (if verb.Add? then e.server.Some? && e.addresses.Some? else e.server.Some? || e.srvname.Some?)
  }

  /** What the code of a call tells: a call that is not made says why and changes nothing. */
  lemma CodeTells(t: Table, verb: Verb, upsname: seq<byte>, e: Entry)
    requires GoodUps(t.ups)
    ensures var r := Perform(t, verb, upsname, e);
            && (!Made(t, verb, e) ==> After(t, r) == t && r.code <= 0)
            && (r.code == E_PARSE_URL <==> verb.Add? && e.server.Some? && e.addresses.None?)
            && (r.code == E_NO_UPS <==> !t.configured && Made(t.(configured := true), verb, e))
            && (r.code in {E_SLAB_CALLOC, E_SLAB_ALLOC} <==>
                  Made(t, verb, e) && verb.Add?
                  && Grants(t.answers) < NeedsFrom(t.ups, 0, upsname, e.backup, |e.addresses.value|))
            && (r.code == E_UPS_LEFT_ONE ==> Made(t, verb, e) && verb.Delete?)
            && (r.code < 0 ==> r.code in {E_UPS_LEFT_ONE, E_PARSE_URL, E_SLAB_ALLOC, E_SLAB_CALLOC, E_NO_UPS})
  {
    hide AddFrom, DeleteFrom, EditFrom, Population, NeedsFrom, Grants, Good;
    match verb
    case Add =>
      if Made(t, verb, e) {
        AddFromReports(t.ups, 0, upsname, e.backup, e.addresses.value, NewServer(e), 0, t.answers);
        AddCodes(t.ups, 0, upsname, e.backup, e.addresses.value, NewServer(e), 0, t.answers);
      }
    case Delete =>
      if Made(t, verb, e) {
        DeleteFromReports(t.ups, 0, upsname, e.backup, EntryFilter(e, true), 0, t.answers);
      }
    case Edit =>
      if Made(t, verb, e) {
        EditCode(t.ups, 0, upsname, e.backup, EntryFilter(e, false), EntryChange(e), 0, t.answers);
      }
  }

  lemma {:induction false} AddCodes(ups: seq<Upstream>, i: nat, upsname: seq<byte>, backup: bool,
        addresses: seq<Address>, p: Server, count: nat, answers: seq<bool>)
    requires GoodUps(ups) && p.weight >= 1
    ensures var code := AddFrom(ups, i, upsname, backup, addresses, p, count, answers).code;
            code >= 0 || code in {E_SLAB_CALLOC, E_SLAB_ALLOC}
    decreases |ups| - i
  {
    hide AddServers, Good;
    if i < |ups| {
      NamedSelects(ups[i], upsname);
      var t := Target(ups[i], backup);
      TargetServers(ups[i], backup);
      if !Selects(ups[i], upsname) {
        AddCodes(ups, i + 1, upsname, backup, addresses, p, count, answers);
      } else if t.Some? || Granted(answers) {
        var g, a := if t.None? then EMPTY else t.value, if t.None? then Later(answers) else answers;
        UpstreamLaws.AddServersFacts(g, addresses, p, a, count);
        var r := AddServers(g, addresses, p, a, count);
        SetKeepsGood(ups, i, backup, r.group);
        if r.code >= 0 {
          AddCodes(ups[i := SetTarget(ups[i], backup, r.group)], i + 1, upsname, backup, addresses, p, r.code,
            r.answers);
        }
      }
    }
  }

  lemma {:induction false} EditCode(ups: seq<Upstream>, i: nat, upsname: seq<byte>, backup: bool, f: Filter,
        c: Change, count: nat, answers: seq<bool>)
    ensures EditFrom(ups, i, upsname, backup, f, c, count, answers).code >= 0
    decreases |ups| - i
  {
    hide EditGroup, Matching;
    if i < |ups| {
      var o := Target(ups[i], backup);
      if !Selects(ups[i], upsname) || o.None? {
        EditCode(ups, i + 1, upsname, backup, f, c, count, answers);
      } else {
        EditCode(ups[i := SetTarget(ups[i], backup, EditGroup(o.value, f, c))], i + 1, upsname, backup, f, c,
          count + Matching(o.value.servers, f), answers);
      }
    }
  }
}
