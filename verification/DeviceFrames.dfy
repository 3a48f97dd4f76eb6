/**
 * A frame read from the local device, from the decider to the flows' queues.
 */
module DeviceFrames {
  import opened Bytes
  import opened Lists
  import opened NodeLists
  import opened FrameDeciderModel
  import opened FrameDeciderGroups
  import opened FrameDeciderRuns
  import opened FrameDecider
  import R = Routing

  const ETHERNET_HEADER: nat := 14

  /** What the decider reads of the bytes of a frame; whether it is IGMP is given. */
  function Seen(frame: seq<byte>, igmp: bool): Frame {
    if |frame| < ETHERNET_HEADER then Short
    else Ethernet(Mac(frame[0], frame[1], frame[2], frame[3], frame[4], frame[5]), igmp)
  }

  /** Every peer has a flow of its own. */
  ghost predicate FlowsOk(flows: map<Id, R.Flow>, peers: map<Id, Peer>, buffers: set<nat>) {
    && (forall p :: p in peers ==> p in flows && flows[p].b in buffers)
    && (forall p, q :: p in peers && q in peers && p != q ==> flows[p].b != flows[q].b)
  }

  ghost predicate NoFlowOf(flows: map<Id, R.Flow>, peers: map<Id, Peer>, b: nat) {
    forall p :: p in peers && p in flows ==> flows[p].b != b
  }

  function FlowsOf(flows: map<Id, R.Flow>, ps: seq<Id>): (fs: seq<R.Flow>)
    requires forall p :: p in ps ==> p in flows
    ensures |fs| == |ps| && forall i :: 0 <= i < |ps| ==> fs[i] == flows[ps[i]]
  {
    seq(|ps|, i requires 0 <= i < |ps| => flows[ps[i]])
  }

  lemma FlowsSnoc(flows: map<Id, R.Flow>, ps: seq<Id>, p: Id)
    requires (forall q :: q in ps ==> q in flows) && p in flows
    ensures FlowsOf(flows, ps + [p]) == FlowsOf(flows, ps) + [flows[p]]
  {
  }

  // ---- how many packets a flow gets ----

  function Times(ps: seq<Id>, p: Id): nat {
    if ps == [] then 0
    else Times(ps[..|ps| - 1], p) + if ps[|ps| - 1] == p then 1 else 0
  }

  lemma TimesSnoc(ps: seq<Id>, q: Id, p: Id)
    ensures Times(ps + [q], p) == Times(ps, p) + if q == p then 1 else 0
  {
    assert (ps + [q])[..|ps|] == ps;
  }

  function Copies(n: nat, packet: seq<byte>): (r: seq<seq<byte>>)
    ensures |r| == n && forall i :: 0 <= i < n ==> r[i] == packet
  {
    seq(n, _ => packet)
  }

  /** The buffer of peer `p` is meant to get one packet each time `p` is a destination. */
  lemma {:induction false} MineIs(flows: map<Id, R.Flow>, ps: seq<Id>, p: Id, frame: seq<byte>)
    requires p in flows && forall q :: q in ps ==> q in flows && (q != p ==> flows[q].b != flows[p].b)
    ensures R.Mine(flows[p].b, FlowsOf(flows, ps), frame) == Copies(Times(ps, p), R.Packet(flows[p], frame))
    decreases |ps|
  {
    if ps != [] {
      hide R.Packet, FlowsOf;
      var init, q := ps[..|ps| - 1], ps[|ps| - 1];
      MineIs(flows, init, p, frame);
      assert ps == init + [q];
      FlowsSnoc(flows, init, q);
      assert FlowsOf(flows, ps)[..|init|] == FlowsOf(flows, init);
    }
  }

  /** The groups of `p` that map to this MAC. */
  ghost function Listening(d: Decider, p: Id, m: Mac): set<nat>
    requires p in d.peers
  {
    set g | g in d.peers[p].groups && GroupMac(g) == m.(b3 := m.b3 % 0x80)
  }

  ghost function GroupsIn(es: seq<Entry>, p: Id): set<nat> {
    set e | e in es && e.peer == p :: e.group
  }

  lemma InGroups(es: seq<Entry>, p: Id, g: nat)
    ensures g in GroupsIn(es, p) <==> Entry(p, g) in es
  {
  }

  lemma {:induction false} TimesIs(es: seq<Entry>, p: Id)
    requires NoDup(es)
    ensures Times(PeersOf(es), p) == |GroupsIn(es, p)|
    decreases |es|
  {
    if es != [] {
      var init, e := es[..|es| - 1], es[|es| - 1];
      hide NoDup, Times, PeersOf, GroupsIn;
      assert es == init + [e];
      PeersSnoc(init, e);
      TimesIs(init, p);
      TimesSnoc(PeersOf(init), e.peer, p);
      GroupsSnoc(init, e, p);
    }
  }

  lemma PeersSnoc(es: seq<Entry>, e: Entry)
    requires NoDup(es + [e])
    ensures NoDup(es) && e !in es && PeersOf(es + [e]) == PeersOf(es) + [e.peer]
  {
    var l := es + [e];
    assert forall i :: 0 <= i < |es| ==> l[i] == es[i] && l[i] != l[|es|];
  }

  lemma GroupsSnoc(es: seq<Entry>, e: Entry, p: Id)
    requires e !in es
    ensures |GroupsIn(es + [e], p)| == |GroupsIn(es, p)| + if e.peer == p then 1 else 0
  {
    hide GroupsIn;
    InGroups(es, p, e.group);
    var more := if e.peer == p then {e.group} else {};
    forall g ensures g in GroupsIn(es + [e], p) <==> g in GroupsIn(es, p) + more {
      InGroups(es, p, g);
      InGroups(es + [e], p, g);
    }
    assert GroupsIn(es + [e], p) == GroupsIn(es, p) + more;
  }

  lemma ListeningIs(d: Decider, es: seq<Entry>, m: Mac, p: Id)
    requires AllListeners(d, es, m) && p in d.peers
    ensures GroupsIn(es, p) == Listening(d, p, m)
  {
    hide GroupsIn, GroupMac, NoDup;
    forall g ensures g in GroupsIn(es, p) <==> g in Listening(d, p, m) {
      InGroups(es, p, g);
      assert Entry(p, g) in es <==> Listens(d, Entry(p, g), m);
    }
  }

  /** A multicast frame has each peer as destination once for every listening membership. */
  lemma MulticastTimes(d: Decider, m: Mac, p: Id)
    requires Inv(d) && Settled(d.decide) && IsMulticast(m) && m != BROADCAST && p in d.peers
    ensures Times(Drain(Decide(d, Ethernet(m, false))).1, p) == |Listening(d, p, m)|
  {
    MulticastDestinations(d, m);
    hide *;
    var es: seq<Entry> :|
      Drain(Decide(d, Ethernet(m, false))) == (d.(decide := NoDecision), PeersOf(es)) && AllListeners(d, es, m);
    assert NoDup(es) by { ListenersOnce(d, es, m); }
    TimesIs(es, p);
    ListeningIs(d, es, m, p);
  }

  lemma ListenersOnce(d: Decider, es: seq<Entry>, m: Mac)
    requires AllListeners(d, es, m)
    ensures NoDup(es)
  {
  }

  /** What copying to the destinations of a multicast frame does to the queue of one peer's flow. */
  lemma FlowGets(d: Decider, m: Mac, qs: R.Queues, flows: map<Id, R.Flow>, frame: seq<byte>, ps: seq<Id>, p: Id)
    requires Inv(d) && Settled(d.decide) && IsMulticast(m) && m != BROADCAST && p in d.peers
    requires FlowsOk(flows, d.peers, qs.Keys) && ps == Drain(Decide(d, Ethernet(m, false))).1
    requires forall q :: q in ps ==> q in d.peers
    ensures R.CopyAll(qs, FlowsOf(flows, ps), frame)[flows[p].b]
            == R.PutAll(qs[flows[p].b], Copies(|Listening(d, p, m)|, R.Packet(flows[p], frame)))
  {
    hide Inv, Drain, Decide, R.CopyAll, R.PutAll, R.Packet, R.Mine, Listening, Times;
    R.CopyAllIs(qs, FlowsOf(flows, ps), frame, flows[p].b);
    MineIs(flows, ps, p, frame);
    MulticastTimes(d, m, p);
  }

  /** A buffer that is no destination is left alone. */
  lemma OthersKeep(qs: R.Queues, fs: seq<R.Flow>, frame: seq<byte>, b: nat)
    requires (forall f :: f in fs ==> f.b in qs && f.b != b) && b in qs
    ensures R.CopyAll(qs, fs, frame)[b] == qs[b]
  {
    R.CopyAllIs(qs, fs, frame, b);
    MineNone(fs, frame, b);
    assert R.PutAll(qs[b], []) == qs[b] by { assert qs[b].packets + [] == qs[b].packets; }
  }

  lemma {:induction false} MineNone(fs: seq<R.Flow>, frame: seq<byte>, b: nat)
    requires forall f :: f in fs ==> f.b != b
    ensures R.Mine(b, fs, frame) == []
    decreases |fs|
  {
    if fs != [] {
      MineNone(fs[..|fs| - 1], frame, b);
    }
  }

  // ---- the handler ----

  /** Every destination of a decision is a peer. */
  lemma DestinationsPresent(d: Decider)
    requires Inv(d)
    ensures forall p :: p in Destinations(d.decide) ==> p in d.peers
  {
    if d.decide.Multicast? {
      var es := d.decide.entries;
      forall p | p in PeersOf(es) ensures p in d.peers {
        var i :| 0 <= i < |es| && PeersOf(es)[i] == p;
        assert es[i] in es && UsedOk(d, es[i]);
      }
    }
  }

  lemma IndexOk(d: Decider)
    requires Inv(d)
    ensures IndexInv(d.mc)
  {
  }

  lemma SamePeers(d: Decider, f: Frame)
    requires IndexInv(d.mc) && Settled(d.decide)
    ensures var d' := Decide(d, f); d' == d.(decide := d'.decide) && !d'.decide.Lost?
  {
    hide IndexInv;
  }

  lemma CopySnoc(qs: R.Queues, fs: seq<R.Flow>, f: R.Flow, frame: seq<byte>)
    requires (forall g :: g in fs ==> g.b in qs) && f.b in qs
    ensures
      var before := R.CopyAll(qs, fs, frame);
      R.CopyAll(qs, fs + [f], frame) == before[f.b := R.Put(before[f.b], R.Packet(f, frame))]
  {
    hide R.Put, R.Packet;
    assert (fs + [f])[..|fs|] == fs;
  }

  /** The destinations from `p` on, `c` being the decision behind it. */
  function Coming(p: Option<Id>, c: Decision): seq<Id> {
    if p.Some? then [p.value] + Destinations(c) else []
  }

  lemma NoneComing(taken: seq<Id>, c: Decision)
    ensures taken + Coming(None, c) == taken
  {
  }

  lemma TakeFirst(d: Decider)
    requires !d.decide.Lost?
    ensures
      var (d1, p) := Next(d);
      && d1 == d.(decide := d1.decide) && (p.None? ==> d1.decide == NoDecision)
      && Destinations(d.decide) == [] + Coming(p, d1.decide)
  {
    NextOf(d);
  }

  lemma TakeNext(all: seq<Id>, taken: seq<Id>, d: Decider, p: Id)
    requires !d.decide.Lost? && all == taken + Coming(Some(p), d.decide)
    ensures p in all && forall q :: q in taken ==> q in all
    ensures
      var (d1, next) := Next(d);
      && d1 == d.(decide := d1.decide) && (if next.None? then d1.decide == NoDecision else Left(d1) < Left(d))
      && all == taken + [p] + Coming(next, d1.decide)
  {
    hide Next, Destinations, Left;
    NextOf(d);
    var (d1, next) := Next(d);
    assert taken + ([p] + Destinations(d.decide)) == taken + [p] + Destinations(d.decide);
    assert all[|taken|] == p;
  }

  /**
   * The loop of device_dpsource_handler: the destination behind the one being
   * served tells whether the frame is needed once more.
   */
  method Serve(d: DeciderObject, router: R.Router, flows: map<Id, R.Flow>)
    requires d.Valid() && !d.Open().Lost? && router.Valid() && router.open
    requires forall p :: p in Destinations(d.Open()) ==> p in flows && flows[p].b in router.buffers
    modifies d`cursor, d.nodes`at, d.nodes`linked, router`mem, router`buffers, router`current, router`open
    ensures d.Valid() && d.State() == old(d.State()).(decide := NoDecision)
    ensures router.Valid() && router.Packets() == old(router.Packets())
    ensures router.Queued() ==
            R.CopyAll(old(router.Queued()), FlowsOf(flows, Destinations(old(d.Open()))), old(router.Frame()))
  {
    hide AllOk, Walk, Onward, NoDup, Next, Destinations, Left, Coming;
    hide R.Apart, R.Values, R.AllPackets, R.Holdings, R.CopyAll, R.Put, R.Packet, FlowsOf;
    ghost var d0, qs, frame := d.State(), router.Queued(), router.Frame();
    ghost var all, taken: seq<Id> := Destinations(d.Open()), [];
    TakeFirst(d0);
    NoFlows(qs, flows, frame);
    var p := d.GetNext();
    while p.Some?
      invariant d.Valid() && !d.Open().Lost? && d.State() == d0.(decide := d.Open())
      invariant p.None? ==> d.Open() == NoDecision
      invariant all == taken + Coming(p, d.Open())
      invariant router.Valid() && router.Packets() == old(router.Packets())
      invariant router.Queued() == R.CopyAll(qs, FlowsOf(flows, taken), frame)
      invariant p.Some? ==> router.open && router.Frame() == frame
      decreases p.Some?, Left(d.State())
    {
      TakeNext(all, taken, d.State(), p.value);
      var next := d.GetNext();
      FlowsSnoc(flows, taken, p.value);
      CopySnoc(qs, FlowsOf(flows, taken), flows[p.value], frame);
      router.Route(flows[p.value], next.Some?);
      taken := taken + [p.value];
      p := next;
    }
    NoneComing(taken, d.Open());
  }

  lemma NoFlows(qs: R.Queues, flows: map<Id, R.Flow>, frame: seq<byte>)
    ensures R.CopyAll(qs, FlowsOf(flows, []), frame) == qs
  {
  }

  /** A frame that the router receives, and device_dpsource_handler. */
  method HandleFrame(d: DeciderObject, router: R.Router, flows: map<Id, R.Flow>, frame: seq<byte>, igmp: bool)
    requires d.Valid() && Inv(d.State()) && Settled(d.Open())
    requires router.Valid() && FlowsOk(flows, d.peers, router.buffers.Keys)
    requires R.OVERHEAD + |frame| <= router.mtu
    modifies d`cursor, d.nodes`at, d.nodes`linked, d.nodes`lost, router
    ensures d.Valid() && d.State() == old(d.State()).(decide := NoDecision)
    ensures router.Valid() && router.Packets() == old(router.Packets())
    ensures
      var ps := Drain(Decide(old(d.State()), Seen(frame, igmp))).1;
      && (forall p :: p in ps ==> p in d.peers)
      && router.Queued() == R.CopyAll(old(router.Queued()), FlowsOf(flows, ps), frame)
  {
    hide AllOk, Walk, Onward, NoDup, Drain, Next, Destinations, Left, Inv, IndexInv, Decide;
    hide R.Apart, R.Values, R.AllPackets, R.Holdings, R.CopyAll, R.Put, R.Packet, FlowsOf, Seen;
    ghost var d0, f := d.State(), Seen(frame, igmp);
    IndexOk(d0);
    SamePeers(d0, f);
    AnalyzeKeeps(d0, f);
    DrainIs(Decide(d0, f));
    DestinationsPresent(Decide(d0, f));
    router.Receive(frame);
    d.AnalyzeFrame(Seen(frame, igmp));
    Serve(d, router, flows);
  }

  /**
   * A multicast frame: the flow of each peer gains one packet, with its own
   * header, for every membership of the peer whose group maps to the frame's
   * MAC, as far as its buffer has room; nothing else is queued.
   */
  method HandleMulticast(d: DeciderObject, router: R.Router, flows: map<Id, R.Flow>, frame: seq<byte>, ghost m: Mac)
    requires d.Valid() && Inv(d.State()) && Settled(d.Open())
    requires router.Valid() && FlowsOk(flows, d.peers, router.buffers.Keys)
    requires R.OVERHEAD + |frame| <= router.mtu
    requires Seen(frame, false) == Ethernet(m, false) && IsMulticast(m)
    modifies d`cursor, d.nodes`at, d.nodes`linked, d.nodes`lost, router
    ensures d.Valid() && d.State() == old(d.State()).(decide := NoDecision)
    ensures router.Valid() && router.Packets() == old(router.Packets()) && router.Queued().Keys == old(router.Queued()).Keys
    ensures forall p :: p in d.peers ==> Gained(old(d.State()), m, old(router.Queued()), router.Queued(), flows, frame, p)
    ensures forall b :: b in router.Queued() && NoFlowOf(flows, d.peers, b) ==> router.Queued()[b] == old(router.Queued())[b]
  {
    hide AllOk, Walk, Onward, NoDup, IndexInv, Drain, Decide, Inv, Seen, Gained, Listening;
    hide R.Apart, R.Values, R.AllPackets, R.Holdings, R.CopyAll, R.Put, R.PutAll, R.Packet;
    ghost var d0, qs := d.State(), router.Queued();
    IndexOk(d0);
    SamePeers(d0, Ethernet(m, false));
    HandleFrame(d, router, flows, frame, false);
    ghost var ps := Drain(Decide(d0, Ethernet(m, false))).1;
    forall p | p in d.peers ensures Gained(d0, m, qs, router.Queued(), flows, frame, p) {
      FlowGets(d0, m, qs, flows, frame, ps, p);
      GainedIs(d0, m, qs, router.Queued(), flows, frame, p);
    }
    forall b | b in qs && NoFlowOf(flows, d.peers, b) ensures router.Queued()[b] == qs[b] {
      OthersKeep(qs, FlowsOf(flows, ps), frame, b);
    }
  }

  ghost predicate Gained(d: Decider, m: Mac, qs: R.Queues, qs': R.Queues, flows: map<Id, R.Flow>, frame: seq<byte>, p: Id)
  {
    && p in d.peers && p in flows && flows[p].b in qs && flows[p].b in qs'
    && qs'[flows[p].b] ==
       R.PutAll(qs[flows[p].b], Copies(|Listening(d, p, m)|, R.Packet(flows[p], frame)))
  }

  lemma GainedIs(d: Decider, m: Mac, qs: R.Queues, qs': R.Queues, flows: map<Id, R.Flow>, frame: seq<byte>, p: Id)
    requires p in d.peers && p in flows && flows[p].b in qs && flows[p].b in qs'
    requires qs'[flows[p].b] == R.PutAll(qs[flows[p].b], Copies(|Listening(d, p, m)|, R.Packet(flows[p], frame)))
    ensures Gained(d, m, qs, qs', flows, frame, p)
  {
  }
}
