/**
  The upstream registry on values: what a group of servers is, and what
  adding, deleting and editing servers make of it. The methods of `Peers`,
  `Adding`, `Removing`, `Editing` and `Listing` are proved against these functions.

  The http and the stream half of the registry are treated alike.
 */
module Upstreams {
  import opened Bytes

  datatype Option<T> = None | Some(value: T)

  const E_UPS_LEFT_ONE := -1000
  const E_PARSE_URL := -1004
  const E_SLAB_ALLOC := -1005
  const E_SLAB_CALLOC := -1006
  const E_NO_UPS := -1009

  /** What a server runs up while it is in use. Requests list it and do not change it. */
  datatype Running = Running(
    currentWeight: int,
    effectiveWeight: int,
    conns: nat,
    fails: nat,
    slowStart: nat,
    startTime: nat)

  function Idle(weight: int): Running {
    Running(0, weight, 0, 0, 0, 0)
  }

  /** `name` is the address a server was resolved to, `server` the text it was configured with. */
  datatype Server = Server(
    name: seq<byte>,
    server: seq<byte>,
    weight: int,
    maxConns: int,
    maxFails: int,
    failTimeout: int,
    down: nat,
    running: Running)

  /** A list of servers with the fields cached beside it. */
  datatype Group = Group(servers: seq<Server>, number: int, totalWeight: int, single: bool)

  /** `zoned`: the upstream has a shared memory zone. Others cannot be changed. */
  datatype Upstream = Upstream(name: seq<byte>, zoned: bool, primary: Group, backup: Option<Group>)

  function Weights(s: seq<Server>): int {
    if s == [] then 0 else s[0].weight + Weights(s[1..])
  }

  predicate Positive(s: seq<Server>) {
    forall i :: 0 <= i < |s| ==> s[i].weight >= 1
  }

  /** The cached fields agree with the list. */
  predicate Good(g: Group) {
    && g.number == |g.servers| && g.totalWeight == Weights(g.servers) && Positive(g.servers)
    && (g.single ==> g.number == 1)
  }

  predicate GoodUpstream(u: Upstream) {
    Good(u.primary) && (u.backup.Some? ==> Good(u.backup.value))
  }

  /** The group a request is about. */
  function Target(u: Upstream, backup: bool): Option<Group> {
    if backup then u.backup else Some(u.primary)
  }

  function SetTarget(u: Upstream, backup: bool, g: Group): Upstream {
    if backup then u.(backup := Some(g)) else u.(primary := g)
  }

  predicate Selects(u: Upstream, upsname: seq<byte>) {
    u.name == upsname && u.zoned
  }

  // ----- Choosing servers

  /** Only what is present is compared. */
  datatype Filter = Filter(name: Option<seq<byte>>, server: Option<seq<byte>>, down: Option<nat>)

  predicate Matches(p: Server, f: Filter) {
    && (f.name.Some? ==> f.name.value == p.name)
    && (f.server.Some? ==> f.server.value == p.server)
    && (f.down.Some? ==> f.down.value == p.down)
  }

  function Keep(s: seq<Server>, f: Filter): (r: seq<Server>) {
    if s == [] then [] else if Matches(s[0], f) then Keep(s[1..], f) else [s[0]] + Keep(s[1..], f)
  }

  function Matching(s: seq<Server>, f: Filter): (n: nat) {
    if s == [] then 0 else (if Matches(s[0], f) then 1 else 0) + Matching(s[1..], f)
  }

  // ----- Deleting

  /** The last server of a group is never deleted. */
  predicate LeftOne(s: seq<Server>, f: Filter) {
    |s| == 1 && Matches(s[0], f)
  }

  /** The loop goes on behind the server that has become the head, which is kept without a test. */
  function Survivors(s: seq<Server>, f: Filter): (r: seq<Server>)
    requires !LeftOne(s, f)
  {
    if s == [] then []
    else if Matches(s[0], f) then [s[1]] + Keep(s[2..], f)
    else [s[0]] + Keep(s[1..], f)
  }

  /** The group when only `rest` is left of it. */
  function Shrunk(g: Group, rest: seq<Server>): Group {
    var gone := |g.servers| - |rest|;
    Group(rest, g.number - gone, g.totalWeight - (Weights(g.servers) - Weights(rest)),
          if gone == 0 then g.single else g.number - gone == 1)
  }

  function DeleteGroup(g: Group, f: Filter): Group {
    if LeftOne(g.servers, f) then g else Shrunk(g, Survivors(g.servers, f))
  }

  function DeleteCode(g: Group, f: Filter): int {
    if LeftOne(g.servers, f) then E_UPS_LEFT_ONE else |g.servers| - |Survivors(g.servers, f)|
  }

  // ----- Editing

  /** What an edit sets; the rest stays. */
  datatype Change = Change(
    weight: Option<int>,
    maxConns: Option<int>,
    maxFails: Option<int>,
    failTimeout: Option<int>,
    down: Option<nat>)

  function Set<T>(o: Option<T>, current: T): T {
    if o.Some? then o.value else current
  }

  function Changed(p: Server, c: Change): Server {
    Server(p.name, p.server, Set(c.weight, p.weight), Set(c.maxConns, p.maxConns), Set(c.maxFails, p.maxFails),
           Set(c.failTimeout, p.failTimeout), Set(c.down, p.down), p.running)
  }

  function Edited(s: seq<Server>, f: Filter, c: Change): (r: seq<Server>)
    ensures |r| == |s|
  {
    seq(|s|, i requires 0 <= i < |s| => if Matches(s[i], f) then Changed(s[i], c) else s[i])
  }

  function EditGroup(g: Group, f: Filter, c: Change): Group {
    var s := Edited(g.servers, f, c);
    g.(servers := s, totalWeight := g.totalWeight - Weights(g.servers) + Weights(s))
  }

  // ----- Adding

  /** A server that is new: it starts with its full weight. */
  predicate Starting(p: Server) {
    p.weight >= 1 && p.running == Idle(p.weight)
  }

  /** An address that a server text resolves to. */
  datatype Address = Address(name: seq<byte>)

  /** The allocator's answers to come; when there are none left it refuses. */
  function Granted(answers: seq<bool>): bool {
    answers != [] && answers[0]
  }

  function Later(answers: seq<bool>): seq<bool> {
    if answers == [] then [] else answers[1..]
  }

  datatype Claim = Claim(code: int, answers: seq<bool>)

  /** The record, the socket address, the name and the server text of one new peer. */
  function ClaimPeer(answers: seq<bool>): Claim {
    var a1 := Later(answers);
    var a2 := Later(a1);
    var a3 := Later(a2);
    if !Granted(answers) then Claim(E_SLAB_CALLOC, a1)
    else if !Granted(a1) then Claim(E_SLAB_ALLOC, a2)
    else if !Granted(a2) then Claim(E_SLAB_ALLOC, a3)
    else if !Granted(a3) then Claim(E_SLAB_ALLOC, Later(a3))
    else Claim(0, Later(a3))
  }

  function Prepend(g: Group, p: Server): Group {
    Group([p] + g.servers, g.number + 1, g.totalWeight + p.weight, g.number + 1 == 1)
  }

  datatype Added = Added(group: Group, code: int, answers: seq<bool>)

  /** One peer for each address, until an allocation fails. */
  function AddServers(g: Group, addresses: seq<Address>, p: Server, answers: seq<bool>, count: int): Added
    decreases |addresses|
  {
    if addresses == [] then Added(g, count, answers)
    else
      var c := ClaimPeer(answers);
      if c.code != 0 then Added(g, c.code, c.answers)
      else AddServers(Prepend(g, p.(name := addresses[0].name)), addresses[1..], p, c.answers, count + 1)
  }

  const EMPTY := Group([], 0, 0, false)

  // ----- All upstreams

  /** The upstreams, and what the caller is told: a count, or an error. */
  datatype Reply = Reply(ups: seq<Upstream>, code: int, answers: seq<bool>)

  /** hdel_peer and sdel_peer, from upstream `i` on. */
  function DeleteFrom(ups: seq<Upstream>, i: nat, upsname: seq<byte>, backup: bool, f: Filter, count: int,
        answers: seq<bool>): Reply
    decreases |ups| - i
  {
    if i >= |ups| then Reply(ups, count, answers)
    else if !Selects(ups[i], upsname) || Target(ups[i], backup).None? then
      DeleteFrom(ups, i + 1, upsname, backup, f, count, answers)
    else
      var g := Target(ups[i], backup).value;
      if LeftOne(g.servers, f) then Reply(ups, E_UPS_LEFT_ONE, answers)
      else DeleteFrom(ups[i := SetTarget(ups[i], backup, DeleteGroup(g, f))], i + 1, upsname, backup, f,
                      count + DeleteCode(g, f), answers)
  }

  /** hmdf_peer and smdf_peer. */
  function EditFrom(ups: seq<Upstream>, i: nat, upsname: seq<byte>, backup: bool, f: Filter, c: Change, count: int,
        answers: seq<bool>): Reply
    decreases |ups| - i
  {
    if i >= |ups| then Reply(ups, count, answers)
    else if !Selects(ups[i], upsname) || Target(ups[i], backup).None? then
      EditFrom(ups, i + 1, upsname, backup, f, c, count, answers)
    else
      var g := Target(ups[i], backup).value;
      EditFrom(ups[i := SetTarget(ups[i], backup, EditGroup(g, f, c))], i + 1, upsname, backup, f, c,
               count + Matching(g.servers, f), answers)
  }

  /** hadd_peer and sadd_peer. A missing backup group is created first. */
  function AddFrom(ups: seq<Upstream>, i: nat, upsname: seq<byte>, backup: bool, addresses: seq<Address>, p: Server,
        count: int, answers: seq<bool>): Reply
    decreases |ups| - i
  {
    if i >= |ups| then Reply(ups, count, answers)
    else if !Selects(ups[i], upsname) then AddFrom(ups, i + 1, upsname, backup, addresses, p, count, answers)
    else
      var create := Target(ups[i], backup).None?;
      if create && !Granted(answers) then Reply(ups, E_SLAB_CALLOC, Later(answers))
      else
        var g := if create then EMPTY else Target(ups[i], backup).value;
        var r := AddServers(g, addresses, p, if create then Later(answers) else answers, count);
        var ups' := ups[i := SetTarget(ups[i], backup, r.group)];
        if r.code < 0 then Reply(ups', r.code, r.answers)
        else AddFrom(ups', i + 1, upsname, backup, addresses, p, r.code, r.answers)
  }

  // ----- Requests

  datatype Protocol = Http | Stream

  /** What the numbers of a request are read as. */
  type Int32 = n: int | -0x8000_0000 <= n < 0x8000_0000

  /** One entry of `peers` in a request, with what its server text resolves to. */
  datatype Entry = Entry(
    server: Option<seq<byte>>,
    srvname: Option<seq<byte>>,
    addresses: Option<seq<Address>>,
    weight: Int32,
    maxConns: Int32,
    maxFails: Int32,
    failTimeout: Int32,
    down: Option<bool>,
    backup: bool)

  datatype Section = Section(protocol: Option<Protocol>, upsname: Option<seq<byte>>, peers: Option<seq<Entry>>)

  datatype Verb = Add | Delete | Edit

  /** The upstreams of one protocol, with the answers of the allocator of its zones. Unless `configured`, there
      is nothing to change. */
  datatype Table = Table(configured: bool, ups: seq<Upstream>, answers: seq<bool>)

  datatype State = State(http: Table, stream: Table)

  function Half(st: State, protocol: Protocol): Table {
    if protocol.Http? then st.http else st.stream
  }

  function SetHalf(st: State, protocol: Protocol, t: Table): State {
    if protocol.Http? then st.(http := t) else st.(stream := t)
  }

  function After(t: Table, r: Reply): Table {
    t.(ups := r.ups, answers := r.answers)
  }

  function Flag(b: bool): nat { if b then 1 else 0 }

  /** The defaults of nginx for what an added server leaves open. What is given is taken: an edit with the same
      entry would change nothing, unless a limit is negative, which only an addition takes for not given. */
  function NewServer(e: Entry): (r: Server)
    requires e.server.Some?
    ensures Changed(r, EntryChange(e)) == r <==> e.maxConns >= 0 && e.maxFails >= 0
    ensures Starting(r) && r.maxConns >= 0 && r.maxFails >= 1 && r.failTimeout >= 1
    ensures r.down <= 1 && (r.down != 0 <==> e.down == Some(true))
  {
    var weight := if e.weight <= 0 then 1 else e.weight;
    Server([], e.server.value, weight, if e.maxConns <= 0 then 0 else e.maxConns,
           if e.maxFails <= 0 then 1 else e.maxFails, if e.failTimeout <= 0 then 10 else e.failTimeout,
           Flag(e.down == Some(true)), Idle(weight))
  }

  function PositiveOnly(n: int): Option<int> {
    if n > 0 then Some(n) else None
  }

  /** The range of `ngx_uint_t` with 64 bits. */
  const WORD := 0x1_0000_0000_0000_0000

  /** A number that is assigned to an unsigned variable. */
  function Wrapped(n: Int32): nat {
    if n < 0 then n + WORD else n
  }

  /** The limits of an edit are unsigned, so that negative ones are large. */
  function EntryChange(e: Entry): Change {
    Change(PositiveOnly(e.weight), PositiveOnly(Wrapped(e.maxConns)), PositiveOnly(Wrapped(e.maxFails)),
           PositiveOnly(e.failTimeout), if e.down.Some? then Some(Flag(e.down.value)) else None)
  }

  /** A negative limit: the default for an addition, the largest numbers for an edit. */
  lemma NegativeLimits(e: Entry)
    requires e.server.Some? && e.maxConns == -1 && e.maxFails == -1
    ensures NewServer(e).maxConns == 0 && NewServer(e).maxFails == 1
    ensures Changed(NewServer(e), EntryChange(e)).maxConns == WORD - 1
    ensures Changed(NewServer(e), EntryChange(e)).maxFails == WORD - 1
  {
  }

  /** An edit that leaves nothing open overrides the add. */
  lemma EditOverridesAdd(e: Entry, c: Entry)
    requires e.server.Some? && c.server == e.server && c.down.Some?
    requires c.weight > 0 && c.maxConns > 0 && c.maxFails > 0 && c.failTimeout > 0
    ensures Changed(NewServer(e), EntryChange(c)) == NewServer(c).(running := NewServer(e).running)
  {
  }

  function EntryFilter(e: Entry, withDown: bool): Filter {
    Filter(e.srvname, e.server, if withDown then Some(Flag(e.down == Some(true))) else None)
  }

  /** One entry's call, if it is made. */
  function Perform(t: Table, verb: Verb, upsname: seq<byte>, e: Entry): Reply {
    match verb
    case Add =>
      if e.server.None? then Reply(t.ups, 0, t.answers)
      else if e.addresses.None? then Reply(t.ups, E_PARSE_URL, t.answers)
      else if !t.configured then Reply(t.ups, E_NO_UPS, t.answers)
      else AddFrom(t.ups, 0, upsname, e.backup, e.addresses.value, NewServer(e), 0, t.answers)
    case Delete =>
      if e.server.None? && e.srvname.None? then Reply(t.ups, 0, t.answers)
      else if !t.configured then Reply(t.ups, E_NO_UPS, t.answers)
      else DeleteFrom(t.ups, 0, upsname, e.backup, EntryFilter(e, true), 0, t.answers)
    case Edit =>
      if e.server.None? && e.srvname.None? then Reply(t.ups, 0, t.answers)
      else if !t.configured then Reply(t.ups, E_NO_UPS, t.answers)
      else EditFrom(t.ups, 0, upsname, e.backup, EntryFilter(e, false), EntryChange(e), 0, t.answers)
  }

  /** The counters reported to the client. */
  datatype Tally = Tally(success: int, failed: int)

  function Count(t: Tally, code: int): Tally {
    if code > 0 then t.(success := t.success + code) else t.(failed := t.failed + 1)
  }

  datatype Served = Served(state: State, tally: Tally)

  function ServeEntry(v: Served, verb: Verb, protocol: Protocol, upsname: seq<byte>, e: Entry): Served {
    var t := Half(v.state, protocol);
    var r := Perform(t, verb, upsname, e);
    Served(SetHalf(v.state, protocol, After(t, r)), Count(v.tally, r.code))
  }

  function ServeEntries(v: Served, verb: Verb, protocol: Protocol, upsname: seq<byte>, es: seq<Entry>): Served
    decreases |es|
  {
    if es == [] then v else ServeEntries(ServeEntry(v, verb, protocol, upsname, es[0]), verb, protocol, upsname,
      es[1..])
  }

  function ServeSection(v: Served, verb: Verb, s: Section): Served {
    if s.protocol.None? || s.upsname.None? || s.peers.None? then v.(tally := Count(v.tally, 0))
    else ServeEntries(v, verb, s.protocol.value, s.upsname.value, s.peers.value)
  }

  /** add_upstream, del_upstream and mdf_upstream. */
  function ServeSections(v: Served, verb: Verb, ss: seq<Section>): Served
    decreases |ss|
  {
    if ss == [] then v else ServeSections(ServeSection(v, verb, ss[0]), verb, ss[1..])
  }

  datatype Request = Request(verb: Verb, sections: seq<Section>)

  function Serve(st: State, r: Request): Served {
    ServeSections(Served(st, Tally(0, 0)), r.verb, r.sections)
  }

  /** Any number of requests; listing requests change nothing. */
  function ServeAll(st: State, rs: seq<Request>): State
    decreases |rs|
  {
    if rs == [] then st else ServeAll(Serve(st, rs[0]).state, rs[1..])
  }
}
