/**
  All upstreams of one protocol in memory: their groups share no peer and no
  block, and what the slab has handed out is what they hold and what has leaked.
 */
module Registry {
  import opened Bytes
  import opened Upstreams
  import opened RegistryLaws
  import opened Peers

  // ----- One upstream

  ghost function BackupList(u: PeerGroup): seq<Peer>
    reads u, u.next
  {
    if u.next == null then [] else u.next.list
  }

  ghost function UpstreamOf(u: PeerGroup): Upstream
    reads u, u.list, u.next, BackupList(u)
  {
    Upstream(u.name, u.zone >= 0, GroupOf(u), if u.next == null then None else Some(GroupOf(u.next)))
  }

  ghost function ReachUp(u: PeerGroup): set<object>
    reads u, u.list, u.next, BackupList(u)
  {
    Reach(u) + if u.next == null then {} else Reach(u.next)
  }

  /** What a group has in its zone. */
  ghost function Held(g: PeerGroup): set<object>
    reads g`list, g.list`sockaddr, g.list`name, g.list`server
  {
    if g.zone < 0 then {} else {g} + PooledOf(g.list, g.zone)
  }

  ghost function HeldUp(u: PeerGroup): set<object>
    reads u, u.list, u.next, BackupList(u)
  {
    Held(u) + if u.next == null then {} else Held(u.next)
  }

  ghost predicate TidyUp(u: PeerGroup)
    reads u, u.list, u.next, BackupList(u)
  {
    && Tidy(u)
    && (u.next != null ==>
          Tidy(u.next) && u.next.next == null && u.next.zone == u.zone && Reach(u) !! Reach(u.next))
  }

  /** Whatever the functions above read. */
  ghost predicate Inside(u: PeerGroup, repr: set<object>)
    reads repr
  {
    && u in repr && (forall p :: p in u.list ==> p in repr)
    && (u.next != null ==> u.next in repr && forall p :: p in u.next.list ==> p in repr)
  }

  // ----- All upstreams

  class UpstreamTable {
    const configured: bool
    const ups: seq<PeerGroup>
    const slab: Slab
    ghost var repr: set<object>

    /** The upstreams as nginx has set them up. */
    constructor (configured: bool, ups: seq<PeerGroup>, slab: Slab, ghost repr: set<object>)
      ensures this.configured == configured && this.ups == ups && this.slab == slab && this.repr == repr
    {
      this.configured, this.ups, this.slab, this.repr := configured, ups, slab, repr;
    }

    ghost predicate Within()
      reads this, repr
    {
      slab in repr && forall i :: 0 <= i < |ups| ==> Inside(ups[i], repr)
    }

    /** What all upstreams have in their zones. */
    ghost function AllHeld(): set<object>
      requires Within()
      reads this, repr
    {
      set i, o | 0 <= i < |ups| && o in HeldUp(ups[i]) :: o
    }

    ghost predicate Separate()
      requires Within()
      reads this, repr
    {
      forall i, j :: 0 <= i < |ups| && 0 <= j < |ups| && i != j ==> ReachUp(ups[i]) !! ReachUp(ups[j])
    }

    ghost predicate Covered()
      requires Within()
      reads this, repr
    {
      forall i :: 0 <= i < |ups| ==> ReachUp(ups[i]) <= repr
    }

    ghost predicate AllTidy()
      requires Within()
      reads this, repr
    {
      forall i :: 0 <= i < |ups| ==> TidyUp(ups[i])
    }

    /** What the slab has handed out is what the upstreams hold and what has leaked. */
    ghost predicate Balanced()
      requires Within()
      reads this, repr
    {
      slab.live == AllHeld() + slab.leaked && AllHeld() !! slab.leaked
    }

    ghost predicate Valid()
      reads this, repr
    {
      Within() && Covered() && AllTidy() && Separate() && Balanced()
    }

    ghost function State(): (r: seq<Upstream>)
      requires Within()
      reads this, repr
      ensures |r| == |ups| && forall i :: 0 <= i < |ups| ==> r[i] == UpstreamOf(ups[i])
    {
      StateUpTo(|ups|)
    }

    ghost function StateUpTo(n: nat): (r: seq<Upstream>)
      requires Within() && n <= |ups|
      reads this, repr
      ensures |r| == n && forall i :: 0 <= i < n ==> r[i] == UpstreamOf(ups[i])
    {
      if n == 0 then [] else StateUpTo(n - 1) + [UpstreamOf(ups[n - 1])]
    }
  }

  // ----- One upstream changes

  lemma ReachAllocated(u: PeerGroup)
    ensures HeldUp(u) <= ReachUp(u) && forall o :: o in ReachUp(u) ==> allocated(o)
  {
    PartsAllocated(u.list);
    PartsAllocated(BackupList(u));
  }

  twostate predicate Same(u: PeerGroup)
    reads u, u.list, u.next, BackupList(u)
  {
    && u.list == old(u.list) && u.next == old(u.next) && BackupList(u) == old(BackupList(u))
    && UpstreamOf(u) == old(UpstreamOf(u)) && TidyUp(u) == old(TidyUp(u))
    && ReachUp(u) == old(ReachUp(u)) && HeldUp(u) == old(HeldUp(u))
  }

  /** The blocks of an upstream change hands: some are freed, new ones are taken, and some of those get lost. */
  twostate predicate Traded(u: PeerGroup, slab: Slab)
    reads slab, u, u.list, u.next, BackupList(u)
  {
    && slab.live == old(slab.live) - old(HeldUp(u)) + HeldUp(u) + (slab.leaked - old(slab.leaked))
    && (forall o :: o in ReachUp(u) ==> o in old(ReachUp(u)) || fresh(o))
    && old(slab.leaked) <= slab.leaked && (forall o :: o in slab.leaked ==> o in old(slab.leaked) || fresh(o))
    && HeldUp(u) !! slab.leaked
  }

  /** The registry before: valid, and, as goes without saying, allocated. */
  twostate predicate WasValid(reg: UpstreamTable)
  {
    old(reg.Valid())
    && forall i :: 0 <= i < |reg.ups| ==>
         old(HeldUp(reg.ups[i]) <= ReachUp(reg.ups[i])) && forall o :: o in old(ReachUp(reg.ups[i])) ==> !fresh(o)
  }

  /** When one upstream has traded blocks and the others are the same, the registry is as valid as before. */
  twostate lemma OneChanged(reg: UpstreamTable, new k: nat)
    requires k < |reg.ups| && WasValid(reg) && TidyUp(reg.ups[k]) && Traded(reg.ups[k], reg.slab)
    requires forall j :: 0 <= j < |reg.ups| && j != k ==> Same(reg.ups[j])
    requires old(reg.repr) <= reg.repr && ReachUp(reg.ups[k]) <= reg.repr
    ensures reg.Valid()
  {
    hide TidyUp, ReachUp, HeldUp, UpstreamOf;
    var ups, slab := reg.ups, reg.slab;
    Reached(ups[k]);
    forall j | 0 <= j < |ups| ensures Inside(ups[j], reg.repr) {
      assert j != k ==> Same(ups[j]) && old(Inside(ups[j], reg.repr));
    }
    forall j | 0 <= j < |ups| ensures ReachUp(ups[j]) <= reg.repr {
      assert j != k ==> Same(ups[j]);
      assert old(ReachUp(ups[j]) <= reg.repr);
    }
    forall j | 0 <= j < |ups| ensures TidyUp(ups[j]) {
      assert j != k ==> Same(ups[j]);
      assert old(TidyUp(ups[j]));
    }
    forall i, j | 0 <= i < |ups| && 0 <= j < |ups| && i != j
      ensures ReachUp(ups[i]) !! ReachUp(ups[j])
    {
      assert old(ReachUp(ups[i])) !! old(ReachUp(ups[j]));
    }
    forall i | 0 <= i < |ups| && i != k
      ensures HeldUp(ups[i]) == old(HeldUp(ups[i])) && HeldUp(ups[i]) !! old(HeldUp(ups[k]))
      ensures HeldUp(ups[i]) <= old(slab.live) && HeldUp(ups[i]) !! slab.leaked
    {
      assert old(ReachUp(ups[i])) !! old(ReachUp(ups[k]));
      assert old(HeldUp(ups[i]) <= reg.AllHeld());
    }
    assert old(HeldUp(ups[k]) <= reg.AllHeld());
    forall o | o in slab.live ensures o in reg.AllHeld() + slab.leaked {
      if o in HeldUp(ups[k]) || o in slab.leaked {
      } else {
        var i :| 0 <= i < |ups| && o in old(HeldUp(ups[i]));
        assert o in HeldUp(ups[i]);
      }
    }
  }

  twostate lemma OneStateChanged(reg: UpstreamTable, new k: nat)
    requires k < |reg.ups| && old(reg.Within()) && reg.Within()
    requires forall j :: 0 <= j < |reg.ups| && j != k ==> Same(reg.ups[j])
    ensures reg.State() == old(reg.State())[k := UpstreamOf(reg.ups[k])]
  {
    hide TidyUp, ReachUp, HeldUp, UpstreamOf, Inside;
  }

  /** The group of an upstream that a request is about. */
  ghost function TargetOf(u: PeerGroup, backup: bool): PeerGroup?
    reads u`next
  {
    if backup then u.next else u
  }

  lemma Reached(u: PeerGroup)
    ensures u in ReachUp(u) && (u.next != null ==> u.next in ReachUp(u))
    ensures (forall p :: p in u.list ==> p in ReachUp(u)) && (forall p :: p in BackupList(u) ==> p in ReachUp(u))
  {
  }

  /** Whatever is reached has been allocated. */
  lemma RegistryAllocated(reg: UpstreamTable)
    requires reg.Within()
    ensures forall i :: 0 <= i < |reg.ups| ==>
              HeldUp(reg.ups[i]) <= ReachUp(reg.ups[i]) && forall o :: o in ReachUp(reg.ups[i]) ==> allocated(o)
  {
    forall i | 0 <= i < |reg.ups|
      ensures HeldUp(reg.ups[i]) <= ReachUp(reg.ups[i]) && forall o :: o in ReachUp(reg.ups[i]) ==> allocated(o)
    {
      ReachAllocated(reg.ups[i]);
    }
  }

  /** Nothing that is read of `u` is in `s`. */
  ghost predicate Away(u: PeerGroup, s: set<object>)
    reads u, u.next
  {
    && u !in s && u.next !in s
    && (forall p :: p in u.list ==> p !in s) && (forall p :: p in BackupList(u) ==> p !in s)
  }

  lemma OthersAway(reg: UpstreamTable, k: nat, s: set<object>)
    requires reg.Within() && reg.Separate() && k < |reg.ups| && s <= ReachUp(reg.ups[k])
    ensures forall j :: 0 <= j < |reg.ups| && j != k ==> Away(reg.ups[j], s)
  {
    forall j | 0 <= j < |reg.ups| && j != k ensures Away(reg.ups[j], s) {
      assert ReachUp(reg.ups[j]) !! ReachUp(reg.ups[k]);
      Reached(reg.ups[j]);
    }
  }

  // ----- One group of an upstream changes

  twostate predicate SameGroup(g: PeerGroup)
    reads g, g.list
  {
    GroupOf(g) == old(GroupOf(g)) && Tidy(g) == old(Tidy(g)) && Reach(g) == old(Reach(g)) && Held(g) == old(Held(g))
    && g.next == old(g.next)
  }

  twostate predicate TradedGroup(g: PeerGroup, slab: Slab)
    reads slab, g, g.list
  {
    && slab.live == old(slab.live) - old(Held(g)) + Held(g) + (slab.leaked - old(slab.leaked))
    && (forall o :: o in Reach(g) ==> o in old(Reach(g)) || fresh(o))
    && old(slab.leaked) <= slab.leaked && (forall o :: o in slab.leaked ==> o in old(slab.leaked) || fresh(o))
    && (forall o :: o in Held(g) ==> o in old(Held(g)) || fresh(o)) && Held(g) !! slab.leaked
  }

  /** An upstream before: tidy, its blocks live and not leaked, and, as goes without saying, allocated. */
  twostate predicate WasTidy(u: PeerGroup, slab: Slab)
  {
    && old(TidyUp(u)) && old(HeldUp(u) <= slab.live) && old(HeldUp(u) !! slab.leaked)
    && old(HeldUp(u) <= ReachUp(u)) && forall o :: o in old(ReachUp(u)) ==> !fresh(o)
  }

  twostate lemma TargetChanged(u: PeerGroup, new backup: bool, new g: PeerGroup, new slab: Slab)
    requires !fresh(g) && !fresh(slab) && WasTidy(u, slab) && u.next == old(u.next) && g == TargetOf(u, backup)
    requires Tidy(g) && g.next == old(g.next) && TradedGroup(g, slab)
    requires if backup then SameGroup(u) else (u.next != null ==> !fresh(u.next) && SameGroup(u.next))
    ensures TidyUp(u) && Traded(u, slab)
    ensures UpstreamOf(u) == SetTarget(old(UpstreamOf(u)), backup, GroupOf(g))
    ensures forall o :: o in ReachUp(u) ==> o in old(ReachUp(u)) || o in Reach(g)
  {
    hide Tidy, GroupOf, PartsOf, PooledOf;
  }

  /** An upstream has got an empty backup group. */
  twostate lemma BackupCreated(u: PeerGroup, new b: PeerGroup, new slab: Slab)
    requires !fresh(slab) && WasTidy(u, slab) && old(u.next) == null && u.next == b && fresh(b)
    requires b.zone == u.zone >= 0 && b.next == null && b.list == [] && b.peer == null && GroupOf(b) == EMPTY
    requires Tidy(u) && GroupOf(u) == old(GroupOf(u)) && Reach(u) == old(Reach(u)) && Held(u) == old(Held(u))
    requires slab.live == old(slab.live) + {b} && slab.leaked == old(slab.leaked)
    ensures TidyUp(u) && Traded(u, slab)
    ensures UpstreamOf(u) == SetTarget(old(UpstreamOf(u)), true, EMPTY)
    ensures ReachUp(u) == old(ReachUp(u)) + {b}
  {
    hide GroupOf, PooledOf, PartsOf, Tidy;
    assert Tidy(b) && Reach(b) == {b} && Held(b) == {b} by { EmptyGroup(b); }
  }

  lemma EmptyGroup(b: PeerGroup)
    requires b.zone >= 0 && b.list == [] && b.peer == null && GroupOf(b) == EMPTY
    ensures Tidy(b) && Reach(b) == {b} && Held(b) == {b}
  {
    EmptyIsGood();
  }

  /** What is known of a group that is about to change. */
  lemma {:induction false} Ready(reg: UpstreamTable, k: nat, backup: bool, g: PeerGroup)
    requires reg.Valid() && k < |reg.ups| && g == TargetOf(reg.ups[k], backup) && reg.ups[k].zone >= 0
    ensures var u := reg.ups[k];
            && TidyUp(u) && HeldUp(u) <= reg.slab.live && HeldUp(u) !! reg.slab.leaked && HeldUp(u) <= ReachUp(u)
            && Tidy(g) && g.zone == u.zone && Held(g) == {g} + PooledOf(g.list, g.zone) && Held(g) <= HeldUp(u)
            && Reach(g) <= ReachUp(u) <= reg.repr && reg.slab in reg.repr
            && (backup ==> u !in Reach(g) && forall p :: p in u.list ==> p !in Reach(g))
            && (!backup && u.next != null ==> u.next !in Reach(g) && forall p :: p in u.next.list ==> p !in Reach(g))
  {
    hide Tidy, PartsOf, PooledOf;
    var u := reg.ups[k];
    assert HeldUp(u) <= reg.AllHeld();
    ReachAllocated(u);
  }

  lemma TargetState(reg: UpstreamTable, k: nat, backup: bool, g: PeerGroup)
    requires reg.Within() && k < |reg.ups| && g == TargetOf(reg.ups[k], backup)
    ensures UpstreamOf(reg.ups[k]) == reg.State()[k] && Target(reg.State()[k], backup) == Some(GroupOf(g))
  {
  }

  lemma Reading(reg: UpstreamTable, k: nat, upsname: seq<byte>, backup: bool)
    requires reg.Within() && k < |reg.ups|
    ensures Selects(reg.State()[k], upsname) <==> reg.ups[k].name == upsname && reg.ups[k].zone >= 0
    ensures Target(reg.State()[k], backup).Some? <==> TargetOf(reg.ups[k], backup) != null
  {
  }

  lemma OnlyPeers(g: PeerGroup)
    ensures g !in PartsOf(g.list) && forall o :: o in Reach(g) ==> o is PeerGroup || o is Peer || o is Chunk
  {
    KindsOfParts(g.list);
  }

  lemma {:induction false} KindsOfParts(s: seq<Peer>)
    ensures forall o :: o in PartsOf(s) ==> o is Peer || o is Chunk
  {
    if s != [] {
      KindsOfParts(s[1..]);
    }
  }

  /** What is proved of good tables on values holds of the upstreams in memory. */
  lemma ValidIsGood(reg: UpstreamTable)
    requires reg.Valid()
    ensures GoodUps(reg.State())
  {
    hide Good;
    forall i | 0 <= i < |reg.ups| ensures GoodUpstream(reg.State()[i]) {
      assert TidyUp(reg.ups[i]);
    }
  }
}
