/**
 * Decisions, peers coming and going, and what holds in every reachable state.
 */
module FrameDeciderRuns {
  import opened Bytes
  import opened Lists
  import opened FrameDeciderModel
  import opened FrameDeciderGroups

  ghost predicate OrderOk(d: Decider) {
    NoDup(d.order) && (forall p :: p in d.order <==> p in d.peers)
  }

  /** An open decision never names a peer or a membership that is gone, and none twice. */
  ghost predicate DecideOk(d: Decider) {
    match d.decide
    case NoDecision => true
    case Unicast(p) => p in d.peers
    case Flood(left) => NoDup(left) && forall p :: p in left ==> p in d.peers
    case Multicast(_, _) => CastOk(d)
    case Lost => true
  }

  ghost predicate Inv(d: Decider) {
    MacInv(d) && GroupInv(d) && OrderOk(d) && DecideOk(d)
  }

  /** The iterator of an open multicast decision, if there is one, follows its list. */
  predicate Follows(c: Decision) {
    !c.Lost? && (c.Multicast? ==> c.linked)
  }

  // ---- peers ----

  /** FrameDeciderPeer_Init; a flood that is not over reaches the new peer too */
  function AddPeer(d: Decider, p: Id): Decider {
    d.(order := d.order + [p], peers := d.peers[p := Peer([], d.maxMacs, [], d.maxGroups)],
       decide := if d.decide.Flood? && d.decide.left != [] then Flood(d.decide.left + [p]) else d.decide)
  }

  lemma AddPeerKeeps(d: Decider, p: Id)
    requires Inv(d) && p !in d.peers
    ensures Inv(AddPeer(d, p))
  {
    var d' := AddPeer(d, p);
    hide IndexInv;
    forall q | q in d'.peers ensures MacsOk(d', q) && GroupsOk(d', q) {
      if q != p { assert MacsOk(d, q) && GroupsOk(d, q); }
    }
    forall m | m in d'.macTree ensures OwnerOk(d', m) { assert OwnerOk(d, m); }
    forall e | e in d'.mc.list ensures UsedOk(d', e) { assert UsedOk(d, e); }
  }

  /** The first loop of FrameDeciderPeer_Free: all memberships leave the index. */
  function DropAll(d: Decider, p: Id): (r: Decider)
    requires GroupInv(d) && p in d.peers
    ensures GroupInv(r) && r.peers.Keys == d.peers.Keys && r.peers[p].groups == []
    ensures r == d.(peers := d.peers[p := d.peers[p].(groups := [], groupFree := r.peers[p].groupFree)], mc := r.mc, decide := r.decide)
    ensures if d.decide.Multicast? then r.decide.Multicast? || r.decide.Lost? else r.decide == d.decide
    ensures CastOk(d) ==> CastOk(r)
    ensures Follows(d.decide) ==> Follows(r.decide)
    decreases |d.peers[p].groups|
  {
    if d.peers[p].groups == [] then d
    else
      DropGroupKeeps(d, p, d.peers[p].groups[0]);
      DropAll(DropGroup(d, p, d.peers[p].groups[0]), p)
  }

  /** The rest of FrameDeciderPeer_Free: addresses, decision and peer go. */
  function Forget(d: Decider, p: Id): Decider
    requires p in d.peers
  {
    d.(order := Remove(d.order, p),
       peers := d.peers - {p},
       macTree := map m | m in d.macTree && m !in d.peers[p].macs :: d.macTree[m],
       decide := match d.decide
                 case Unicast(q) => if q == p then NoDecision else d.decide
                 case Flood(left) => Flood(Remove(left, p))
                 case _ => d.decide)
  }

  /** FrameDeciderPeer_Free */
  function FreePeer(d: Decider, p: Id): Decider
    requires GroupInv(d) && p in d.peers
  {
    Forget(DropAll(d, p), p)
  }

  lemma FreePeerMacs(d: Decider, p: Id)
    requires MacInv(d) && GroupInv(d) && p in d.peers
    ensures MacInv(FreePeer(d, p))
  {
    hide GroupInv;
    var d' := FreePeer(d, p);
    assert MacsOk(d, p);
    forall q | q in d'.peers ensures MacsOk(d', q) { assert MacsOk(d, q); }
    forall m | m in d'.macTree ensures OwnerOk(d', m) { assert OwnerOk(d, m); }
  }

  lemma FreePeerGroups(d: Decider, p: Id)
    requires GroupInv(d) && p in d.peers
    ensures GroupInv(FreePeer(d, p))
  {
    hide IndexInv, Remove;
    var d1, d' := DropAll(d, p), FreePeer(d, p);
    forall q | q in d'.peers ensures GroupsOk(d', q) { assert GroupsOk(d1, q); }
    forall e | e in d'.mc.list ensures UsedOk(d', e) { assert UsedOk(d1, e); }
  }

  lemma FreePeerKeeps(d: Decider, p: Id)
    requires Inv(d) && p in d.peers
    ensures Inv(FreePeer(d, p))
  {
    FreePeerMacs(d, p);
    FreePeerGroups(d, p);
    hide MacInv, GroupInv;
    FreePeerOrder(d, p);
  }

  lemma FreePeerOrder(d: Decider, p: Id)
    requires OrderOk(d) && DecideOk(d) && GroupInv(d) && p in d.peers
    ensures OrderOk(FreePeer(d, p)) && DecideOk(FreePeer(d, p))
  {
    hide GroupInv;
  }

  // ---- decisions ----

  const BROADCAST := Mac(0xff, 0xff, 0xff, 0xff, 0xff, 0xff)

  /** What the decider reads of a frame. */
  datatype Frame = Short | Ethernet(dest: Mac, igmp: bool)

  /** FrameDecider_AnalyzeAndDecide; of an undrained multicast decision only the iterator is unlinked */
  function Decide(d: Decider, f: Frame): Decider
    requires IndexInv(d.mc) && !d.decide.Lost?
  {
    if d.decide.Multicast? then d.(decide := d.decide.(linked := false))
    else if f.Short? then d.(decide := NoDecision)
    else if f.igmp || f.dest == BROADCAST then d.(decide := Flood(d.order))
    else if IsMulticast(f.dest) then
      var s := MacSig(f.dest);
      ListIsExact(d.mc, s);
      d.(decide := if s in d.mc.tree then Multicast(d.mc.list[d.mc.tree[s]], true) else NoDecision)
    else if f.dest in d.macTree then d.(decide := Unicast(d.macTree[f.dest]))
    else d.(decide := Flood(d.order))
  }

  /** FrameDecider_NextDestination */
  function Next(d: Decider): (res: (Decider, Option<Id>))
    requires !d.decide.Lost?
    ensures !res.0.decide.Lost?
  {
    match d.decide
    case NoDecision => (d, None)
    case Unicast(p) => (d.(decide := NoDecision), Some(p))
    case Flood(left) =>
      if left == [] then (d.(decide := NoDecision), None) else (d.(decide := Flood(left[1..])), Some(left[0]))
    case Multicast(es, _) =>
      if es == [] then (d.(decide := NoDecision), None) else (d.(decide := Multicast(es[1..], true)), Some(es[0].peer))
  }

  function Left(d: Decider): nat {
    match d.decide
    case NoDecision => 0
    case Unicast(_) => 1
    case Flood(left) => 1 + |left|
    case Multicast(es, _) => 1 + |es|
    case Lost => 0
  }

  /** Every destination, as the loop of device_dpsource_handler takes them. */
  function Drain(d: Decider): (Decider, seq<Id>)
    requires !d.decide.Lost?
    decreases Left(d)
  {
    var (d1, p) := Next(d);
    if p.None? then (d1, [])
    else
      var (d2, ps) := Drain(d1);
      (d2, [p.value] + ps)
  }

  function PeersOf(es: seq<Entry>): (ps: seq<Id>)
    ensures |ps| == |es| && forall i :: 0 <= i < |es| ==> ps[i] == es[i].peer
  {
    if es == [] then [] else [es[0].peer] + PeersOf(es[1..])
  }

  /** What is still to come of a decision. */
  function Destinations(c: Decision): seq<Id> {
    match c
    case NoDecision => []
    case Unicast(p) => [p]
    case Flood(left) => left
    case Multicast(es, _) => PeersOf(es)
    case Lost => []
  }

  /** One destination is taken from those to come, until there is none. */
  lemma NextOf(d: Decider)
    requires !d.decide.Lost?
    ensures
      var (d1, p) := Next(d);
      && d1 == d.(decide := d1.decide) && !d1.decide.Lost?
      && if p.None? then Destinations(d.decide) == [] && d1.decide == NoDecision
         else Destinations(d.decide) == [p.value] + Destinations(d1.decide) && Left(d1) < Left(d)
  {
  }

  lemma {:induction false} DrainIs(d: Decider)
    requires !d.decide.Lost?
    ensures Drain(d) == (d.(decide := NoDecision), Destinations(d.decide))
    decreases Left(d)
  {
    hide Next, Left, Destinations;
    NextOf(d);
    var (d1, p) := Next(d);
    if p.Some? {
      DrainIs(d1);
    }
  }

  /** No multicast decision is open. */
  predicate Settled(c: Decision) {
    !c.Multicast? && !c.Lost?
  }

  /** The used entries whose group the standard maps to this MAC, ignoring its 24th bit. */
  ghost predicate Listens(d: Decider, e: Entry, m: Mac) {
    UsedOk(d, e) && GroupMac(e.group) == m.(b3 := m.b3 % 0x80)
  }

  ghost predicate AllListeners(d: Decider, es: seq<Entry>, m: Mac) {
    NoDup(es) && forall e :: e in es <==> Listens(d, e, m)
  }

  /**
   * A multicast frame goes out exactly once for each membership whose group
   * maps to the frame's MAC.
   */
  lemma MulticastDestinations(d: Decider, m: Mac)
    requires Inv(d) && Settled(d.decide) && IsMulticast(m) && m != BROADCAST
    ensures exists es: seq<Entry> ::
      Drain(Decide(d, Ethernet(m, false))) == (d.(decide := NoDecision), PeersOf(es)) && AllListeners(d, es, m)
  {
    var s := MacSig(m);
    ListIsExact(d.mc, s);
    DrainIs(Decide(d, Ethernet(m, false)));
    var es := if s in d.mc.tree then d.mc.list[d.mc.tree[s]] else [];
    forall e ensures e in es <==> Listens(d, e, m) {
      SigIsGroupMac(m, e);
      if e in d.mc.list { assert UsedOk(d, e); }
      if UsedOk(d, e) { EntryIsUsed(d, e.peer, e.group); }
    }
    assert AllListeners(d, es, m);
    assert Drain(Decide(d, Ethernet(m, false))) == (d.(decide := NoDecision), PeersOf(es));
  }

  /** No peer is in two groups that map to this MAC. */
  ghost predicate OneGroupEach(d: Decider, m: Mac) {
    forall e, x :: Listens(d, e, m) && Listens(d, x, m) && e.peer == x.peer ==> e == x
  }

  /**
   * A multicast frame goes to exactly the peers with a listening membership,
   * and to each of them once if and only if none has two.
   */
  lemma EachPeerOnce(d: Decider, m: Mac)
    requires Inv(d) && Settled(d.decide) && IsMulticast(m) && m != BROADCAST
    ensures
      var ps := Drain(Decide(d, Ethernet(m, false))).1;
      && (forall p :: p in ps <==> exists e :: Listens(d, e, m) && e.peer == p)
      && (NoDup(ps) <==> OneGroupEach(d, m))
  {
    MulticastDestinations(d, m);
    hide *;
    var es: seq<Entry> :|
      Drain(Decide(d, Ethernet(m, false))) == (d.(decide := NoDecision), PeersOf(es)) && AllListeners(d, es, m);
    PeersListen(d, es, m);
    PeersOnce(d, es, m);
  }

  lemma PeersListen(d: Decider, es: seq<Entry>, m: Mac)
    requires AllListeners(d, es, m)
    ensures forall p :: p in PeersOf(es) <==> exists e :: Listens(d, e, m) && e.peer == p
  {
    hide Listens;
    var ps := PeersOf(es);
    forall p ensures p in ps <==> exists e :: Listens(d, e, m) && e.peer == p {
      if p in ps {
        var i :| 0 <= i < |ps| && ps[i] == p;
        assert es[i] in es;
      }
      if e :| Listens(d, e, m) && e.peer == p {
        var i :| 0 <= i < |es| && es[i] == e;
        assert ps[i] == p;
      }
    }
  }

  lemma PeersOnce(d: Decider, es: seq<Entry>, m: Mac)
    requires AllListeners(d, es, m)
    ensures NoDup(PeersOf(es)) <==> OneGroupEach(d, m)
  {
    hide Listens;
    var ps := PeersOf(es);
    if NoDup(ps) {
      forall e, x | Listens(d, e, m) && Listens(d, x, m) && e.peer == x.peer ensures e == x {
        var i :| 0 <= i < |es| && es[i] == e;
        var j :| 0 <= j < |es| && es[j] == x;
        assert ps[i] == ps[j];
      }
    } else {
      var i, j :| 0 <= i < j < |ps| && ps[i] == ps[j];
      assert es[i] in es && es[j] in es && es[i] != es[j];
    }
  }

  /** Every other frame goes to the one peer that owns its MAC, or once to every peer; one without a header to none. */
  lemma OtherDestinations(d: Decider, f: Frame)
    requires Inv(d) && Settled(d.decide) && (f.Ethernet? && IsMulticast(f.dest) ==> f.igmp)
    ensures
      var ps := Drain(Decide(d, f)).1;
      if f.Short? then ps == []
      else if !f.igmp && f.dest != BROADCAST && exists p :: p in d.peers && f.dest in d.peers[p].macs
      then |ps| == 1 && ps[0] in d.peers && forall p :: p in d.peers && f.dest in d.peers[p].macs ==> ps == [p]
      else NoDup(ps) && forall p :: p in ps <==> p in d.peers
  {
    DrainIs(Decide(d, f));
    if f.Ethernet? {
      forall p | p in d.peers && f.dest in d.peers[p].macs ensures f.dest in d.macTree && d.macTree[f.dest] == p {
        assert MacsOk(d, p);
      }
      if f.dest in d.macTree { assert OwnerOk(d, f.dest); }
    }
  }

  // ---- runs ----

  datatype Event =
    | PeerInit(peer: Id)
    | PeerFree(peer: Id)
    | Learn(peer: Id, mac: Mac)          // a frame from this peer had this source MAC
    | Report(peer: Id, group: nat)       // an IGMP membership report
    | Timeout(peer: Id, group: nat)      // a membership's timer expired
    | Analyze(frame: Frame)
    | NextDestination

  ghost predicate Enabled(d: Decider, e: Event) {
    match e
    case PeerInit(p) => p !in d.peers
    case PeerFree(p) => p in d.peers
    case Learn(p, m) => p in d.peers
    case Report(p, g) => p in d.peers
    case Timeout(p, g) => p in d.peers && g in d.peers[p].groups
    case Analyze(_) => !d.decide.Lost?
    case NextDestination => !d.decide.Lost?
  }

  function Step(d: Decider, e: Event): Decider
    requires Inv(d) && Enabled(d, e)
  {
    match e
    case PeerInit(p) => AddPeer(d, p)
    case PeerFree(p) => FreePeer(d, p)
    case Learn(p, m) => AddMac(d, p, m)
    case Report(p, g) => AddGroup(d, p, g)
    case Timeout(p, g) => EntryIsUsed(d, p, g); DropGroup(d, p, g)
    case Analyze(f) => Decide(d, f)
    case NextDestination => Next(d).0
  }

  /** Only the MAC tables differ. */
  ghost predicate SameGroups(d: Decider, d': Decider) {
    && d' == d.(peers := d'.peers, macTree := d'.macTree) && d'.peers.Keys == d.peers.Keys
    && forall q :: q in d.peers ==> d'.peers[q].groups == d.peers[q].groups && d'.peers[q].groupFree == d.peers[q].groupFree
  }

  lemma SameGroupsKeeps(d: Decider, d': Decider)
    requires GroupInv(d) && OrderOk(d) && DecideOk(d) && SameGroups(d, d')
    ensures GroupInv(d') && OrderOk(d') && DecideOk(d')
  {
    hide IndexInv;
    assert forall q :: q in d'.peers <==> q in d.peers;
    forall q | q in d'.peers ensures GroupsOk(d', q) { assert GroupsOk(d, q); }
    forall e | e in d'.mc.list ensures UsedOk(d', e) { assert UsedOk(d, e); }
  }

  /** Only the group tables and an open multicast decision differ. */
  ghost predicate SameMacs(d: Decider, d': Decider) {
    && d' == d.(peers := d'.peers, mc := d'.mc, decide := d'.decide) && d'.peers.Keys == d.peers.Keys
    && (if d.decide.Multicast? then d'.decide.Multicast? || d'.decide.Lost? else d'.decide == d.decide)
    && forall q :: q in d.peers ==> d'.peers[q].macs == d.peers[q].macs && d'.peers[q].macFree == d.peers[q].macFree
  }

  lemma SameMacsKeeps(d: Decider, d': Decider)
    requires MacInv(d) && OrderOk(d) && DecideOk(d) && SameMacs(d, d') && (CastOk(d) ==> CastOk(d'))
    ensures MacInv(d') && OrderOk(d') && DecideOk(d')
  {
    assert forall q :: q in d'.peers <==> q in d.peers;
    forall q | q in d'.peers ensures MacsOk(d', q) { assert MacsOk(d, q); }
    forall m | m in d'.macTree ensures OwnerOk(d', m) { assert OwnerOk(d, m); }
  }

  lemma DecideKeeps(d: Decider, c: Decision)
    requires MacInv(d) && GroupInv(d) && OrderOk(d) && DecideOk(d.(decide := c))
    ensures Inv(d.(decide := c))
  {
    hide IndexInv;
    var d' := d.(decide := c);
    forall q | q in d'.peers ensures MacsOk(d', q) && GroupsOk(d', q) { assert MacsOk(d, q) && GroupsOk(d, q); }
    forall m | m in d'.macTree ensures OwnerOk(d', m) { assert OwnerOk(d, m); }
    forall e | e in d'.mc.list ensures UsedOk(d', e) { assert UsedOk(d, e); }
  }

  lemma LearnKeeps(d: Decider, p: Id, m: Mac)
    requires Inv(d) && p in d.peers
    ensures Inv(AddMac(d, p, m))
  {
    hide MacInv, GroupInv, AddMac;
    LearningIsLru(d, p, m);
    AddMacSameGroups(d, p, m);
    SameGroupsKeeps(d, AddMac(d, p, m));
  }

  lemma TakeEntrySameGroups(d: Decider, p: Id, m: Mac)
    requires MacInv(d) && p in d.peers
    ensures SameGroups(d, TakeEntry(d, p, m))
  {
    hide Remove;
    assert MacsOk(d, p);
    var macs := d.peers[p].macs;
    if d.peers[p].macFree == 0 {
      assert macs[0] in macs;
      assert SameGroups(d, Disassociate(d, macs[0]));
    }
  }

  lemma AddMacSameGroups(d: Decider, p: Id, m: Mac)
    requires MacInv(d) && p in d.peers
    ensures SameGroups(d, AddMac(d, p, m))
  {
    hide MacInv, Remove, TakeEntry;
    if m in d.macTree && d.macTree[m] != p {
      DisassociateKeeps(d, m);
      TakeEntrySameGroups(Disassociate(d, m), p, m);
    } else if m !in d.macTree {
      TakeEntrySameGroups(d, p, m);
    }
  }

  lemma ReportKeeps(d: Decider, p: Id, g: nat)
    requires Inv(d) && p in d.peers
    ensures Inv(AddGroup(d, p, g))
  {
    hide MacInv, GroupInv, OrderOk, DecideOk, CastOk, AddGroup, SameMacs;
    AddGroupKeeps(d, p, g);
    AddGroupSameMacs(d, p, g);
    SameMacsKeeps(d, AddGroup(d, p, g));
  }

  lemma AddGroupSameMacs(d: Decider, p: Id, g: nat)
    requires GroupInv(d) && p in d.peers
    ensures SameMacs(d, AddGroup(d, p, g))
  {
    assert GroupsOk(d, p);
    if g !in d.peers[p].groups && d.peers[p].groupFree == 0 {
      DropGroupKeeps(d, p, d.peers[p].groups[0]);
    }
    hide GroupInv, Remove, AddTo, RemoveFrom, InsertAfter, CastOk;
  }

  lemma TimeoutKeeps(d: Decider, p: Id, g: nat)
    requires Inv(d) && p in d.peers && g in d.peers[p].groups
    ensures Entry(p, g) in d.mc.list && Entry(p, g) in d.mc.list[Entry(p, g)] && Inv(DropGroup(d, p, g))
  {
    hide MacInv, GroupInv, OrderOk, DecideOk, CastOk, Remove, RemoveFrom;
    DropGroupKeeps(d, p, g);
    SameMacsKeeps(d, DropGroup(d, p, g));
  }

  lemma AnalyzeKeeps(d: Decider, f: Frame)
    requires Inv(d) && !d.decide.Lost?
    ensures Inv(Decide(d, f))
  {
    var c := Decide(d, f).decide;
    if f.Ethernet? {
      ListIsExact(d.mc, MacSig(f.dest));
      if f.dest in d.macTree { assert OwnerOk(d, f.dest); }
    }
    hide MacInv, GroupInv;
    assert DecideOk(d.(decide := c));
    DecideKeeps(d, c);
  }

  /** Every event keeps all tables, lists and trees in agreement. */
  lemma StepKeepsInv(d: Decider, e: Event)
    requires Inv(d) && Enabled(d, e)
    ensures Inv(Step(d, e))
  {
    match e
    case PeerInit(p) => AddPeerKeeps(d, p);
    case PeerFree(p) => FreePeerKeeps(d, p);
    case Learn(p, m) => LearnKeeps(d, p, m);
    case Report(p, g) => ReportKeeps(d, p, g);
    case Timeout(p, g) => TimeoutKeeps(d, p, g);
    case Analyze(f) => AnalyzeKeeps(d, f);
    case NextDestination =>
      hide MacInv, GroupInv;
      DecideKeeps(d, Next(d).0.decide);
  }

  /** Whatever came and went since the decision, the next destination is a present peer. */
  lemma NextIsPresent(d: Decider)
    requires Inv(d) && !d.decide.Lost? && Next(d).1.Some?
    ensures Next(d).1.value in d.peers
    ensures d.decide.Multicast? ==> UsedOk(d, d.decide.entries[0]) && Next(d).1.value == d.decide.entries[0].peer
  {
    if d.decide.Multicast? {
      assert d.decide.entries[0] in d.mc.list;
      assert UsedOk(d, d.decide.entries[0]);
    } else if d.decide.Flood? {
      assert d.decide.left[0] in d.decide.left;
    }
  }

  ghost predicate Run(d: Decider, e: seq<Event>)
    requires Inv(d)
    decreases |e|
  {
    e == [] || (Enabled(d, e[0]) && (StepKeepsInv(d, e[0]); Run(Step(d, e[0]), e[1..])))
  }

  ghost function Final(d: Decider, e: seq<Event>): (d': Decider)
    requires Inv(d) && Run(d, e)
    ensures Inv(d')
    decreases |e|
  {
    if e == [] then d else StepKeepsInv(d, e[0]); Final(Step(d, e[0]), e[1..])
  }

  function Empty(maxMacs: nat, maxGroups: nat): (d: Decider)
    requires 0 < maxMacs && 0 < maxGroups
    ensures Inv(d)
  {
    Decider(maxMacs, maxGroups, [], map[], map[], Index(map[], {}, map[]), NoDecision)
  }

  // ---- decisions during which something changes ----

  /** No frame is analysed while a multicast decision is open. */
  ghost predicate Orderly(d: Decider, e: seq<Event>)
    requires Inv(d) && Run(d, e)
    decreases |e|
  {
    e == [] || ((e[0].Analyze? ==> !d.decide.Multicast?) && (StepKeepsInv(d, e[0]); Orderly(Step(d, e[0]), e[1..])))
  }

  lemma StepFollows(d: Decider, e: Event)
    requires Inv(d) && Enabled(d, e) && Follows(d.decide) && (e.Analyze? ==> !d.decide.Multicast?)
    ensures Follows(Step(d, e).decide)
  {
    hide MacInv, GroupInv, AddMac, Remove, RemoveFrom, AddTo, InsertAfter;
    match e
    case Learn(p, m) => AddMacSameGroups(d, p, m);
    case Report(p, g) => AddGroupFollows(d, p, g);
    case Timeout(p, g) => EntryIsUsed(d, p, g);
    case _ =>
  }

  lemma AddGroupFollows(d: Decider, p: Id, g: nat)
    requires GroupInv(d) && p in d.peers && Follows(d.decide)
    ensures Follows(AddGroup(d, p, g).decide)
  {
    hide Remove, RemoveFrom, AddTo, InsertAfter, IndexInv, CastOk;
    assert GroupsOk(d, p);
    if g !in d.peers[p].groups && d.peers[p].groupFree == 0 {
      DropGroupKeeps(d, p, d.peers[p].groups[0]);
      assert Follows(DropGroup(d, p, d.peers[p].groups[0]).decide);
    }
  }

  lemma {:induction false} OrderlyFollows(d: Decider, e: seq<Event>)
    requires Inv(d) && Run(d, e) && Orderly(d, e) && Follows(d.decide)
    ensures Follows(Final(d, e).decide)
    decreases |e|
  {
    hide Inv, Enabled, Step, Follows;
    if e != [] {
      StepKeepsInv(d, e[0]);
      StepFollows(d, e[0]);
      OrderlyFollows(Step(d, e[0]), e[1..]);
    }
  }

  /** The open decision is lost if this membership times out now. */
  ghost predicate Hangs(d: Decider, p: Id, g: nat)
    requires Inv(d)
  {
    Enabled(d, Timeout(p, g)) && Step(d, Timeout(p, g)).decide.Lost?
  }

  /**
   * An event puts a decision that follows its list at risk, so that the loss of
   * one membership can make it lost, exactly if it analyses a frame while a
   * multicast decision has destinations left.
   */
  lemma RiskExactly(d: Decider, e: Event)
    requires Inv(d) && Enabled(d, e) && Follows(d.decide)
    ensures Inv(Step(d, e))
    ensures (exists p, g :: Hangs(Step(d, e), p, g)) <==> e.Analyze? && d.decide.Multicast? && d.decide.entries != []
  {
    StepKeepsInv(d, e);
    var d' := Step(d, e);
    hide MacInv, GroupInv, AddMac, AddGroup, Remove, RemoveFrom;
    if e.Analyze? && d.decide.Multicast? {
      if d.decide.entries != [] {
        var x := d.decide.entries[0];
        AtRisk(d', x);
        assert Hangs(d', x.peer, x.group);
      }
    } else {
      StepFollows(d, e);
    }
  }

  lemma AtRisk(d: Decider, x: Entry)
    requires Inv(d) && StrandedAt(d.decide, x)
    ensures Hangs(d, x.peer, x.group)
  {
    assert x in d.decide.entries && UsedOk(d, x);
    EntryIsUsed(d, x.peer, x.group);
    hide GroupInv, MacInv, RemoveFrom, Remove;
  }

  /** Such a run: a peer joins a group, and leaves it after a second frame was analysed. */
  lemma LosingRun(maxMacs: nat, maxGroups: nat, p: Id, g: nat, f: Frame)
    requires 0 < maxMacs && 0 < maxGroups
    ensures
      var e := [PeerInit(p), Report(p, g), Analyze(Ethernet(GroupMac(g), false)), Analyze(f), Timeout(p, g)];
      Run(Empty(maxMacs, maxGroups), e) && Final(Empty(maxMacs, maxGroups), e).decide.Lost?
  {
    hide Inv, Step;
    var d0 := Empty(maxMacs, maxGroups);
    StepKeepsInv(d0, PeerInit(p));
    var d1 := Step(d0, PeerInit(p));
    OneJoins(d0, p, g);
    StepKeepsInv(d1, Report(p, g));
    var d2, a := Step(d1, Report(p, g)), Analyze(Ethernet(GroupMac(g), false));
    LosesIt(d2, p, g, f);
    FinalStep(d1, Report(p, g), [a, Analyze(f), Timeout(p, g)]);
    FinalStep(d0, PeerInit(p), [Report(p, g), a, Analyze(f), Timeout(p, g)]);
    assert [Report(p, g)] + [a, Analyze(f), Timeout(p, g)] == [Report(p, g), a, Analyze(f), Timeout(p, g)];
    assert [PeerInit(p)] + [Report(p, g), a, Analyze(f), Timeout(p, g)] == [PeerInit(p), Report(p, g), a, Analyze(f), Timeout(p, g)];
  }

  lemma OneJoins(d: Decider, p: Id, g: nat)
    requires Inv(d) && d == Empty(d.maxMacs, d.maxGroups)
    ensures
      var d1 := Step(d, PeerInit(p));
      && Inv(d1) && Enabled(d1, Report(p, g))
      && var d2 := Step(d1, Report(p, g));
         var x := Entry(p, g);
         d2.mc == Index(map[Sig(x) := x], {x}, map[x := [x]]) && d2.decide == NoDecision
  {
    assert d.maxGroups > 0;
    hide MacInv, GroupInv;
    StepKeepsInv(d, PeerInit(p));
    var d1, x := Step(d, PeerInit(p)), Entry(p, g);
    assert d1.peers[p].groups == [] && d1.mc == Index(map[], {}, map[]);
    assert AddTo(d1.mc, x) == Index(map[Sig(x) := x], {x}, map[x := [x]]);
  }

  lemma Unlinked(d: Decider, p: Id, g: nat, f: Frame)
    requires
      var x := Entry(p, g);
      Inv(d) && d.mc == Index(map[Sig(x) := x], {x}, map[x := [x]]) && d.decide == NoDecision
    ensures
      var d1 := Step(d, Analyze(Ethernet(GroupMac(g), false)));
      && Inv(d1) && !d1.decide.Lost?
      && StrandedAt(Step(d1, Analyze(f)).decide, Entry(p, g))
  {
    var a, x := Analyze(Ethernet(GroupMac(g), false)), Entry(p, g);
    StepKeepsInv(d, a);
    SigIsGroupMac(GroupMac(g), x);
    hide MacInv, GroupInv;
    assert Step(d, a).decide == Multicast([x], true);
  }

  lemma LosesIt(d: Decider, p: Id, g: nat, f: Frame)
    requires
      var x := Entry(p, g);
      Inv(d) && d.mc == Index(map[Sig(x) := x], {x}, map[x := [x]]) && d.decide == NoDecision
    ensures
      var e := [Analyze(Ethernet(GroupMac(g), false)), Analyze(f), Timeout(p, g)];
      Run(d, e) && Final(d, e).decide.Lost?
  {
    hide Inv, Run, Final, Step;
    var a, x := Analyze(Ethernet(GroupMac(g), false)), Entry(p, g);
    Unlinked(d, p, g, f);
    var d1 := Step(d, a);
    StepKeepsInv(d1, Analyze(f));
    var d2 := Step(d1, Analyze(f));
    AtRisk(d2, x);
    FinalOne(d2, Timeout(p, g));
    FinalStep(d1, Analyze(f), [Timeout(p, g)]);
    FinalStep(d, a, [Analyze(f), Timeout(p, g)]);
    assert [Analyze(f)] + [Timeout(p, g)] == [Analyze(f), Timeout(p, g)];
    assert [a] + [Analyze(f), Timeout(p, g)] == [a, Analyze(f), Timeout(p, g)];
  }

  lemma FinalStep(d: Decider, x: Event, e: seq<Event>)
    requires Inv(d) && Enabled(d, x)
    ensures Inv(Step(d, x))
    ensures Run(Step(d, x), e) ==> Run(d, [x] + e) && Final(d, [x] + e) == Final(Step(d, x), e)
  {
    hide Inv, Step, Enabled;
    StepKeepsInv(d, x);
    assert ([x] + e)[1..] == e;
  }

  lemma FinalOne(d: Decider, x: Event)
    requires Inv(d) && Enabled(d, x)
    ensures Run(d, [x]) && Final(d, [x]) == Step(d, x)
  {
    FinalStep(d, x, []);
    assert [x] == [x] + [];
  }

  /**
   * After any history, also one in which peers, memberships and addresses
   * change while a decision is open, its next destination is a present peer
   * unless it is lost; and it is not lost if no frame was ever analysed during
   * a multicast decision.
   */
  lemma NeverToAbsent(maxMacs: nat, maxGroups: nat, e: seq<Event>)
    requires 0 < maxMacs && 0 < maxGroups && Run(Empty(maxMacs, maxGroups), e)
    ensures
      var d := Final(Empty(maxMacs, maxGroups), e);
      && (!d.decide.Lost? && Next(d).1.Some? ==> Next(d).1.value in d.peers)
      && (Orderly(Empty(maxMacs, maxGroups), e) ==> !d.decide.Lost?)
  {
    var d := Final(Empty(maxMacs, maxGroups), e);
    if Orderly(Empty(maxMacs, maxGroups), e) {
      OrderlyFollows(Empty(maxMacs, maxGroups), e);
    }
    if !d.decide.Lost? && Next(d).1.Some? {
      NextIsPresent(d);
    }
  }

  /**
   * After any history of peers, learned addresses, reports and timeouts, a
   * drained multicast decision is one destination per listening membership.
   */
  lemma MulticastAfterAnyRun(maxMacs: nat, maxGroups: nat, e: seq<Event>, m: Mac)
    requires 0 < maxMacs && 0 < maxGroups && Run(Empty(maxMacs, maxGroups), e)
    requires Settled(Final(Empty(maxMacs, maxGroups), e).decide) && IsMulticast(m)
    ensures
      var d := Final(Empty(maxMacs, maxGroups), e);
      exists es: seq<Entry> :: Drain(Decide(d, Ethernet(m, false))).1 == PeersOf(es) && AllListeners(d, es, m)
  {
    MulticastDestinations(Final(Empty(maxMacs, maxGroups), e), m);
  }
}
