/**
 * The decider object, whose tables change in place.
 */
module FrameDecider {
  import opened Bytes
  import opened Lists
  import opened NodeLists
  import opened FrameDeciderModel
  import opened FrameDeciderGroups
  import opened FrameDeciderRuns

  /** How far an open decision is; where a multicast one is, the entries' iterator knows. */
  datatype Cursor = Closed | ToPeer(peer: Id) | FloodAt(current: Option<Id>) | Casting

  class DeciderObject {
    const maxMacs: nat
    const maxGroups: nat
    var order: seq<Id>
    var peers: map<Id, Peer>
    var macTree: map<Mac, Id>
    var tree: map<nat, Entry>
    var masters: set<Entry>
    const nodes: Nodes<Entry>
    var cursor: Cursor

    ghost predicate Valid()
      reads this, nodes
    {
      && nodes.Valid() && NoDup(order)
      && (cursor.FloodAt? && cursor.current.Some? ==> cursor.current.value in order)
    }

    ghost function Open(): Decision
      reads this, nodes
    {
      match cursor
      case Closed => NoDecision
      case ToPeer(p) => Unicast(p)
      case FloodAt(at) => Flood(Onward(order, at))
      case Casting => if nodes.lost then Lost else Multicast(nodes.Rest(), nodes.linked)
    }

    ghost function Multi(): Index
      reads this, nodes
    {
      Index(tree, masters, nodes.list)
    }

    ghost function State(): Decider
      reads this, nodes
    {
      Decider(maxMacs, maxGroups, order, peers, macTree, Multi(), Open())
    }

    /** FrameDecider_Init */
    constructor (maxMacs: nat, maxGroups: nat)
      requires 0 < maxMacs && 0 < maxGroups
      ensures Valid() && fresh(nodes) && State() == Empty(maxMacs, maxGroups)
    {
      this.maxMacs, this.maxGroups := maxMacs, maxGroups;
      order, peers, macTree, tree, masters, cursor := [], map[], map[], map[], {}, Closed;
      nodes := new Nodes();
    }

    method ReleaseMac(m: Mac)
      requires Valid() && m in macTree && macTree[m] in peers
      modifies this`macTree, this`peers
      ensures State() == Disassociate(old(State()), m)
    {
      var q := macTree[m];
      macTree := macTree - {m};
      peers := peers[q := peers[q].(macs := Remove(peers[q].macs, m), macFree := peers[q].macFree + 1)];
    }

    /** The end of add_mac_to_peer: use a free entry, or the oldest used one. */
    method UseEntry(p: Id, m: Mac)
      requires Valid() && MacInv(State()) && p in peers
      modifies this`macTree, this`peers
      ensures State() == TakeEntry(old(State()), p, m)
    {
      hide MacInv, Remove;
      TakeEntryFacts(State(), p);
      if peers[p].macFree == 0 {
        ReleaseMac(peers[p].macs[0]);
      }
      peers := peers[p := peers[p].(macs := peers[p].macs + [m], macFree := peers[p].macFree - 1)];
      macTree := macTree[m := p];
    }

    /** add_mac_to_peer */
    method AddMacToPeer(p: Id, m: Mac)
      requires Valid() && MacInv(State()) && p in peers
      modifies this`macTree, this`peers
      ensures MacInv(State()) && State() == AddMac(old(State()), p, m)
    {
      hide MacInv, Remove, TakeEntry, Lru;
      LearningIsLru(State(), p, m);
      if m in macTree {
        if macTree[m] == p {
          peers := peers[p := peers[p].(macs := Remove(peers[p].macs, m) + [m])];
          return;
        }
        DisassociateKeeps(State(), m);
        ReleaseMac(m);
      }
      UseEntry(p, m);
    }

    /** add_to_multicast */
    method AddToMulticast(e: Entry)
      requires Valid() && e !in nodes.list && (Sig(e) in tree ==> tree[Sig(e)] in nodes.list)
      modifies this`tree, this`masters, nodes
      ensures Valid() && Multi() == AddTo(old(Multi()), e) && Open() == CastAdd(old(Open()), old(Multi()), e)
    {
      hide InsertAfter, Relink, AllOk, Walk, Onward, NoDup;
      var s := Sig(e);
      if s in tree {
        masters := masters - {e};
        nodes.InitAfter(e, tree[s]);
      } else {
        masters := masters + {e};
        tree := tree[s := e];
        nodes.InitLonely(e);
      }
    }

    /** remove_from_multicast */
    method RemoveFromMulticast(e: Entry)
      requires Valid() && e in nodes.list
      modifies this`tree, this`masters, nodes
      ensures Valid() && old(e in nodes.list[e])
      ensures Multi() == RemoveFrom(old(Multi()), e) && Open() == CastRemove(old(Open()), e)
    {
      hide Remove, Relink, NextOrPrev, AllOk, Walk, Onward, NoDup;
      var s := Sig(e);
      InOwnList(nodes.next, nodes.prev, nodes.list, e);
      if e in masters {
        tree := tree - {s};
        var lonely := nodes.IsLonely(e);
        if !lonely {
          LongList(nodes.list[e], e);
          var heir := nodes.Neighbour(e);
          masters := masters + {heir};
          tree := tree[s := heir];
        }
      }
      masters := masters - {e};
      nodes.Free(e);
    }

    /** remove_group_entry */
    method RemoveGroupEntry(p: Id, g: nat)
      requires Valid() && GroupInv(State()) && p in peers && g in peers[p].groups
      modifies this, nodes
      ensures Valid() && GroupInv(State())
      ensures old(Entry(p, g) in nodes.list && Entry(p, g) in nodes.list[Entry(p, g)])
      ensures State() == DropGroup(old(State()), p, g)
    {
      hide GroupInv, RemoveFrom, CastOk, CastRemove, AllOk, Walk, NoDup, Remove, Onward;
      DropGroupKeeps(State(), p, g);
      RemoveFromMulticast(Entry(p, g));
      peers := peers[p := peers[p].(groups := Remove(peers[p].groups, g), groupFree := peers[p].groupFree + 1)];
    }

    /** The end of add_group_to_peer: the peer has a free entry. */
    method UseGroupEntry(p: Id, g: nat)
      requires Valid() && p in peers && peers[p].groupFree > 0 && Entry(p, g) !in nodes.list
      requires Sig(Entry(p, g)) in tree ==> tree[Sig(Entry(p, g))] in nodes.list
      modifies this, nodes
      ensures Valid() && State() == JoinGroup(old(State()), p, g)
    {
      hide AddTo, CastAdd;
      AddToMulticast(Entry(p, g));
      peers := peers[p := peers[p].(groups := peers[p].groups + [g], groupFree := peers[p].groupFree - 1)];
    }

    /** add_group_to_peer */
    method AddGroupToPeer(p: Id, g: nat)
      requires Valid() && GroupInv(State()) && p in peers
      modifies this, nodes
      ensures Valid() && GroupInv(State()) && State() == AddGroup(old(State()), p, g)
    {
      hide GroupInv, DropGroup, JoinGroup, Remove, CastOk;
      AddGroupKeeps(State(), p, g);
      if g in peers[p].groups {
        peers := peers[p := peers[p].(groups := Remove(peers[p].groups, g) + [g])];
        return;
      }
      MakeRoom(State(), p, g);
      if peers[p].groupFree == 0 {
        RemoveGroupEntry(p, peers[p].groups[0]);
      }
      UseGroupEntry(p, g);
    }

    /** FrameDeciderPeer_Init */
    method InitPeer(p: Id)
      requires Valid() && Inv(State()) && p !in peers
      modifies this
      ensures Valid() && Inv(State()) && State() == AddPeer(old(State()), p)
    {
      AddPeerKeeps(State(), p);
      assert OrderOk(State());
      hide Inv, Onward;
      if cursor.FloodAt? {
        OnwardAppend(order, cursor.current, p);
        OnwardIsEmpty(order, cursor.current);
      }
      order := order + [p];
      peers := peers[p := Peer([], maxMacs, [], maxGroups)];
    }

    /** The first loop of FrameDeciderPeer_Free */
    method LeaveGroups(p: Id)
      requires Valid() && GroupInv(State()) && p in peers
      modifies this, nodes
      ensures Valid() && State() == DropAll(old(State()), p)
    {
      hide GroupInv, CastOk, AllOk, Walk, NoDup, Remove, Onward, DropGroup;
      while peers[p].groups != []
        invariant Valid() && p in peers && GroupInv(State())
        invariant DropAll(State(), p) == DropAll(old(State()), p)
        decreases |peers[p].groups|
      {
        DropFirst(State(), p);
        RemoveGroupEntry(p, peers[p].groups[0]);
      }
    }

    /** FrameDeciderPeer_Free */
    method FreeAPeer(p: Id)
      requires Valid() && Inv(State()) && p in peers
      modifies this, nodes
      ensures Valid() && Inv(State()) && State() == FreePeer(old(State()), p)
    {
      hide MacInv, GroupInv, DecideOk, Remove, CastOk, AllOk, Forget;
      FreePeerKeeps(State(), p);
      LeaveGroups(p);
      ForgetPeer(p);
    }

    method ForgetPeer(p: Id)
      requires Valid() && p in order && p in peers
      modifies this
      ensures Valid() && State() == Forget(old(State()), p)
    {
      hide Onward, Remove, AllOk, Walk;
      macTree := map m | m in macTree && m !in peers[p].macs :: macTree[m];
      if cursor == ToPeer(p) {
        cursor := Closed;
      } else if cursor.FloodAt? {
        OnwardRemove(order, cursor.current, p);
        NeighboursIn(order, p);
        if cursor.current == Some(p) {
          NextOther(order, p);
          cursor := FloodAt(Succ(order, p));
        }
      }
      order := Remove(order, p);
      peers := peers - {p};
    }

    /** FrameDecider_AnalyzeAndDecide, once the frame's headers are read */
    method AnalyzeFrame(f: Frame)
      requires Valid() && IndexInv(Multi()) && !Open().Lost?
      modifies this`cursor, nodes`at, nodes`linked, nodes`lost
      ensures Valid() && State() == Decide(old(State()), f)
    {
      if cursor.Casting? {
        nodes.Unlink();
        return;
      }
      cursor := Closed;
      if f.Short? {
        return;
      }
      var first := if order == [] then None else Some(order[0]);
      if f.igmp || f.dest == BROADCAST {
        cursor := FloodAt(first);
      } else if IsMulticast(f.dest) {
        var s := MacSig(f.dest);
        ListIsExact(Multi(), s);
        if s in tree {
          assert NodeOk(nodes.next, nodes.prev, nodes.list, tree[s]);
          var head := nodes.FirstOf(tree[s]);
          nodes.Start(head);
          cursor := Casting;
        }
      } else if f.dest in macTree {
        cursor := ToPeer(macTree[f.dest]);
      } else {
        cursor := FloodAt(first);
      }
    }

    /** FrameDecider_NextDestination */
    method GetNext() returns (p: Option<Id>)
      requires Valid() && !Open().Lost?
      modifies this`cursor, nodes`at, nodes`linked
      ensures Valid() && !Open().Lost? && (State(), p) == Next(old(State()))
    {
      hide Onward;
      match cursor
      case Closed => p := None;
      case ToPeer(q) => cursor, p := Closed, Some(q);
      case FloodAt(at) =>
        OnwardIsEmpty(order, at);
        if at.None? {
          cursor, p := Closed, None;
        } else {
          OnwardStep(order, at.value);
          NeighboursIn(order, at.value);
          cursor, p := FloodAt(Succ(order, at.value)), at;
        }
      case Casting =>
        var e := nodes.Step();
        if e.None? {
          cursor, p := Closed, None;
        } else {
          p := Some(e.value.peer);
        }
    }

    /** The loop of device_dpsource_handler over the destinations of a decision. */
    method AllDestinations() returns (ps: seq<Id>)
      requires Valid() && !Open().Lost?
      modifies this`cursor, nodes`at, nodes`linked
      ensures Valid() && (State(), ps) == Drain(old(State()))
    {
      hide AllOk, Walk, Onward, NoDup, Drain, Next, Destinations, Left;
      ps := [];
      ghost var d := State();
      DrainIs(d);
      NextOf(d);
      var p := GetNext();
      while p.Some?
        invariant Valid() && !Open().Lost? && State() == d.(decide := Open()) && (p.None? ==> Open() == NoDecision)
        invariant Destinations(d.decide) == ps + (if p.Some? then [p.value] + Destinations(Open()) else [])
        decreases p.Some?, Left(State())
      {
        ps := ps + [p.value];
        NextOf(State());
        p := GetNext();
      }
      assert ps + [] == ps;
    }
  }

  lemma LongList(l: seq<Entry>, e: Entry)
    requires e in l && l != [e]
    ensures |l| > 1
  {
  }

  lemma OnwardIsEmpty(l: seq<Id>, at: Option<Id>)
    requires at.Some? ==> at.value in l
    ensures Onward(l, at) == [] <==> at.None?
  {
  }

  lemma TakeEntryFacts(d: Decider, p: Id)
    requires MacInv(d) && p in d.peers
    ensures d.peers[p].macFree == 0 ==> d.peers[p].macs != []
    ensures d.peers[p].macFree == 0 ==> d.peers[p].macs[0] in d.macTree && d.macTree[d.peers[p].macs[0]] == p
  {
    var macs := d.peers[p].macs;
    assert MacsOk(d, p) && (macs != [] ==> macs[0] in macs);
  }

  /** What a peer that joins a new group needs, and how it gets a free entry. */
  lemma MakeRoom(d: Decider, p: Id, g: nat)
    requires GroupInv(d) && p in d.peers && g !in d.peers[p].groups
    ensures d.peers[p].groupFree > 0 ==> Entry(p, g) !in d.mc.list && (Sig(Entry(p, g)) in d.mc.tree ==> d.mc.tree[Sig(Entry(p, g))] in d.mc.list)
    ensures d.peers[p].groupFree == 0 ==>
      && d.peers[p].groups != []
      && var o := d.peers[p].groups[0];
         && Entry(p, o) in d.mc.list && Entry(p, o) in d.mc.list[Entry(p, o)]
         && var d1 := DropGroup(d, p, o);
            && p in d1.peers && d1.peers[p].groupFree > 0 && Entry(p, g) !in d1.mc.list
            && (Sig(Entry(p, g)) in d1.mc.tree ==> d1.mc.tree[Sig(Entry(p, g))] in d1.mc.list)
  {
    assert GroupsOk(d, p);
    hide IndexInv, RemoveFrom, AddTo;
    if d.peers[p].groupFree > 0 {
      JoinGroupKeeps(d, p, g);
    } else {
      DropGroupKeeps(d, p, d.peers[p].groups[0]);
      JoinGroupKeeps(DropGroup(d, p, d.peers[p].groups[0]), p, g);
    }
  }

  lemma DropFirst(d: Decider, p: Id)
    requires GroupInv(d) && p in d.peers && d.peers[p].groups != []
    ensures
      var g := d.peers[p].groups[0];
      && Entry(p, g) in d.mc.list && Entry(p, g) in d.mc.list[Entry(p, g)] && GroupInv(DropGroup(d, p, g))
      && DropAll(d, p) == DropAll(DropGroup(d, p, g), p) && |DropGroup(d, p, g).peers[p].groups| < |d.peers[p].groups|
  {
    DropGroupKeeps(d, p, d.peers[p].groups[0]);
    hide GroupInv, RemoveFrom;
  }
}
