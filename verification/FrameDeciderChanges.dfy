/**
 * What becomes of an open decision when peers and memberships come and go: it
 * loses exactly what is gone, and gains only what is new.
 */
module FrameDeciderChanges {
  import opened Bytes
  import opened Lists
  import opened NodeLists
  import opened FrameDeciderModel
  import opened FrameDeciderGroups
  import opened FrameDeciderRuns

  /** Of the memberships that were there before and are there after, the same are still to come. */
  ghost predicate Carried(d: Decider, d': Decider) {
    && d.decide.Multicast? && d'.decide.Multicast?
    && forall x :: x in d.mc.list && x in d'.mc.list ==> (x in d'.decide.entries <==> x in d.decide.entries)
  }

  /** The same for a flood and for a single destination. */
  ghost predicate Continued(d: Decider, e: Event, d': Decider) {
    match d.decide
    case NoDecision => d'.decide == NoDecision
    case Unicast(q) => d'.decide == if e == PeerFree(q) then NoDecision else d.decide
    case Flood(left) =>
      && d'.decide.Flood?
      && forall q :: q in d'.decide.left <==> (q in left && e != PeerFree(q)) || (left != [] && e == PeerInit(q))
    case Multicast(_, _) => Carried(d, d')
    case Lost => d'.decide == Lost
  }

  lemma DropCarries(d: Decider, p: Id, g: nat)
    requires GroupInv(d) && p in d.peers && g in d.peers[p].groups && d.decide.Multicast? && d.decide.linked && CastOk(d)
    ensures Entry(p, g) in d.mc.list && Entry(p, g) in d.mc.list[Entry(p, g)]
    ensures Carried(d, DropGroup(d, p, g)) && DropGroup(d, p, g).decide.linked
  {
    hide IndexInv, RemoveFrom, Remove;
    DropGroupKeeps(d, p, g);
  }

  lemma JoinCarries(d: Decider, p: Id, g: nat)
    requires GroupInv(d) && p in d.peers && g !in d.peers[p].groups && d.peers[p].groupFree > 0
    requires d.decide.Multicast? && d.decide.linked && CastOk(d)
    ensures Sig(Entry(p, g)) in d.mc.tree ==> d.mc.tree[Sig(Entry(p, g))] in d.mc.list
    ensures Entry(p, g) !in d.mc.list && Carried(d, JoinGroup(d, p, g)) && JoinGroup(d, p, g).decide.linked
  {
    hide IndexInv, AddTo, InsertAfter;
    JoinGroupKeeps(d, p, g);
  }

  /** A new membership is visited exactly if the master of its signature is still to come. */
  lemma NewIsVisited(d: Decider, p: Id, g: nat)
    requires GroupInv(d) && p in d.peers && g !in d.peers[p].groups && d.peers[p].groupFree > 0
    requires d.decide.Multicast? && CastOk(d)
    ensures Sig(Entry(p, g)) in d.mc.tree ==> d.mc.tree[Sig(Entry(p, g))] in d.mc.list
    ensures
      var s, d' := Sig(Entry(p, g)), JoinGroup(d, p, g);
      && d'.decide.Multicast?
      && (Entry(p, g) in d'.decide.entries <==> s in d.mc.tree && d.mc.tree[s] in d.decide.entries)
  {
    hide IndexInv, AddTo, InsertAfter;
    JoinGroupKeeps(d, p, g);
  }

  lemma {:induction false} DropAllCarries(d: Decider, p: Id)
    requires GroupInv(d) && p in d.peers && d.decide.Multicast? && d.decide.linked && CastOk(d)
    ensures Carried(d, DropAll(d, p)) && forall x :: x in DropAll(d, p).mc.list ==> x in d.mc.list
    decreases |d.peers[p].groups|
  {
    if d.peers[p].groups != [] {
      var g := d.peers[p].groups[0];
      DropCarries(d, p, g);
      DropGroupKeeps(d, p, g);
      var d1 := DropGroup(d, p, g);
      assert d1.peers[p].groups == d.peers[p].groups[1..];
      hide GroupInv, CastOk, DropGroup;
      DropAllCarries(d1, p);
    }
  }

  lemma ReportCarries(d: Decider, p: Id, g: nat)
    requires GroupInv(d) && p in d.peers && d.decide.Multicast? && d.decide.linked && CastOk(d)
    ensures Carried(d, AddGroup(d, p, g))
  {
    hide IndexInv, CastOk, DropGroup, JoinGroup, Carried;
    assert GroupsOk(d, p);
    var pe := d.peers[p];
    if g in pe.groups {
      assert Carried(d, AddGroup(d, p, g)) by { SameCarries(d, AddGroup(d, p, g)); }
    } else if pe.groupFree > 0 {
      JoinCarries(d, p, g);
    } else {
      EvictCarries(d, p, g);
    }
  }

  lemma SameCarries(d: Decider, d': Decider)
    requires d.decide.Multicast? && d'.decide == d.decide
    ensures Carried(d, d')
  {
  }

  lemma EvictCarries(d: Decider, p: Id, g: nat)
    requires GroupInv(d) && p in d.peers && d.decide.Multicast? && d.decide.linked && CastOk(d)
    requires g !in d.peers[p].groups && d.peers[p].groupFree == 0
    ensures Carried(d, AddGroup(d, p, g))
  {
    assert GroupsOk(d, p);
    var o := d.peers[p].groups[0];
    DropCarries(d, p, o);
    DropGroupKeeps(d, p, o);
    var d1 := DropGroup(d, p, o);
    assert g !in d1.peers[p].groups;
    assert d1.peers[p].groupFree > 0;
    hide GroupInv, CastOk, DropGroup;
    JoinGroupKeeps(d1, p, g);
    JoinCarries(d1, p, g);
    hide JoinGroup;
    var d2 := JoinGroup(d1, p, g);
    assert forall x :: x in d.mc.list && x in d2.mc.list ==> x == Entry(p, g) || x in d1.mc.list;
    assert Entry(p, g) !in d.mc.list by { NotUsed(d, p, g); }
  }

  lemma NotUsed(d: Decider, p: Id, g: nat)
    requires GroupInv(d) && p in d.peers && g !in d.peers[p].groups
    ensures Entry(p, g) !in d.mc.list
  {
    assert Entry(p, g) in d.mc.list ==> UsedOk(d, Entry(p, g));
  }

  lemma LearnKeepsDecision(d: Decider, p: Id, m: Mac)
    requires MacInv(d) && p in d.peers
    ensures AddMac(d, p, m).decide == d.decide
  {
    AddMacSameGroups(d, p, m);
  }

  lemma OtherReports(d: Decider, p: Id, g: nat)
    requires GroupInv(d) && p in d.peers && !d.decide.Multicast?
    ensures AddGroup(d, p, g).decide == d.decide
  {
    hide IndexInv, AddTo, RemoveFrom, Remove, CastOk;
    assert GroupsOk(d, p);
  }

  lemma FreeContinues(d: Decider, p: Id)
    requires Inv(d) && p in d.peers && Follows(d.decide)
    ensures Continued(d, PeerFree(p), FreePeer(d, p))
  {
    hide MacInv, GroupInv, Carried, CastOk;
    if d.decide.Multicast? {
      DropAllCarries(d, p);
      assert Carried(d, FreePeer(d, p)) by { ForgetCarries(d, DropAll(d, p), p); }
    }
  }

  lemma ForgetCarries(d: Decider, d1: Decider, p: Id)
    requires Carried(d, d1) && p in d1.peers
    ensures Carried(d, Forget(d1, p))
  {
  }

  /**
   * While a decision is open, peers that go are not visited, peers that come
   * are visited by a flood that is not over, and of the memberships that stay
   * the same are visited as before.
   */
  lemma ChangesFollowed(d: Decider, e: Event)
    requires Inv(d) && Enabled(d, e) && Follows(d.decide) && !e.Analyze? && !e.NextDestination?
    ensures Continued(d, e, Step(d, e))
  {
    hide MacInv, GroupInv, CastOk, AddMac, AddGroup, Carried, FreePeer, DropGroup;
    match e
    case PeerInit(p) => if d.decide.Multicast? { SameCarries(d, Step(d, e)); }
    case PeerFree(p) => FreeContinues(d, p);
    case Learn(p, m) =>
      LearnKeepsDecision(d, p, m);
      if d.decide.Multicast? { SameCarries(d, Step(d, e)); }
    case Report(p, g) =>
      if d.decide.Multicast? {
        ReportCarries(d, p, g);
      } else {
        OtherReports(d, p, g);
      }
    case Timeout(p, g) => TimeoutContinues(d, p, g);
  }

  lemma TimeoutContinues(d: Decider, p: Id, g: nat)
    requires Inv(d) && p in d.peers && g in d.peers[p].groups && Follows(d.decide)
    ensures Entry(p, g) in d.mc.list && Entry(p, g) in d.mc.list[Entry(p, g)]
    ensures Continued(d, Timeout(p, g), DropGroup(d, p, g))
  {
    hide MacInv, GroupInv, RemoveFrom, Remove, CastOk;
    EntryIsUsed(d, p, g);
    if d.decide.Multicast? {
      DropCarries(d, p, g);
    }
  }

  // ---- from what was heard to where frames go ----

  /** Once a frame with source address `m` has come from `p`, frames to `m` go to `p` alone. */
  lemma LearnedIsReached(d: Decider, p: Id, m: Mac)
    requires Inv(d) && p in d.peers && Settled(d.decide) && !IsMulticast(m) && m != BROADCAST
    ensures
      var d' := Step(d, Learn(p, m));
      Inv(d') && Settled(d'.decide) && Drain(Decide(d', Ethernet(m, false))).1 == [p]
  {
    StepKeepsInv(d, Learn(p, m));
    LearningIsLru(d, p, m);
    LearnKeepsDecision(d, p, m);
    var d' := Step(d, Learn(p, m));
    hide MacInv, GroupInv, AddMac;
    DrainIs(Decide(d', Ethernet(m, false)));
  }

  /** Once `p` has reported a group, frames for the group reach it; once the membership times out, it no longer counts. */
  lemma ReportedIsReached(d: Decider, p: Id, g: nat)
    requires Inv(d) && p in d.peers && Settled(d.decide)
    ensures
      var d' := Step(d, Report(p, g));
      && Inv(d') && Settled(d'.decide) && p in Drain(Decide(d', Ethernet(GroupMac(g), false))).1
      && Enabled(d', Timeout(p, g)) && !Listens(Step(d', Timeout(p, g)), Entry(p, g), GroupMac(g))
  {
    hide MacInv, GroupInv, Step, Listens, Drain, Decide;
    var d', x, m := Step(d, Report(p, g)), Entry(p, g), GroupMac(g);
    StepKeepsInv(d, Report(p, g));
    ReportListens(d, p, g);
    EachPeerOnce(d', m);
    assert Listens(d', x, m) && x.peer == p;
    TimedOutIsGone(d', p, g);
  }

  lemma ReportListens(d: Decider, p: Id, g: nat)
    requires Inv(d) && p in d.peers && Settled(d.decide)
    ensures
      var d' := Step(d, Report(p, g));
      && d'.decide == d.decide && p in d'.peers && g in d'.peers[p].groups
      && Listens(d', Entry(p, g), GroupMac(g))
  {
    assert d.maxGroups > 0;
    hide MacInv, GroupInv, AddGroup, OrderOk, DecideOk, CastOk;
    AddGroupKeeps(d, p, g);
    OtherReports(d, p, g);
    hide LruGroups, GroupMac;
    LastOfLru(d.peers[p].groups, g, d.maxGroups);
    ZeroBit(g);
  }

  lemma ZeroBit(g: nat)
    ensures var m := GroupMac(g); m.(b3 := m.b3 % 0x80) == m
  {
  }

  lemma LastOfLru(groups: seq<nat>, g: nat, max: nat)
    ensures 0 < max ==> g in LruGroups(groups, g, max)
  {
    var l := Remove(groups, g) + [g];
    assert l[|l| - 1] == g;
    assert |l| > max > 0 ==> l[1..][|l| - 2] == g;
  }

  lemma TimedOutIsGone(d: Decider, p: Id, g: nat)
    requires Inv(d) && p in d.peers && g in d.peers[p].groups
    ensures !Listens(Step(d, Timeout(p, g)), Entry(p, g), GroupMac(g))
  {
    EntryIsUsed(d, p, g);
    assert GroupsOk(d, p);
  }
}
