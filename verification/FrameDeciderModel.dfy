/**
 * FrameDecider: which peers a frame goes to.  It learns MAC addresses with a
 * bounded least-recently-used table per peer, and keeps IGMP group memberships
 * in lists of equal signature, each found through one master entry.
 */
module FrameDeciderModel {
  import opened Bytes
  import opened Lists

  type Id = nat

  datatype Mac = Mac(b0: byte, b1: byte, b2: byte, b3: byte, b4: byte, b5: byte)

  /** A peer's membership of a group; a group is an IPv4 address. */
  datatype Entry = Entry(peer: Id, group: nat)

  datatype Peer = Peer(macs: seq<Mac>, macFree: nat, groups: seq<nat>, groupFree: nat)

  /**
   * What an open decision has still to visit.  The iterator of a multicast one
   * follows changes of its list while it is linked to its node; one that is not
   * linked is lost when its node leaves the list.
   */
  datatype Decision =
    | NoDecision
    | Unicast(peer: Id)
    | Flood(left: seq<Id>)
    | Multicast(entries: seq<Entry>, linked: bool)
    | Lost

  datatype Decider = Decider(
    maxMacs: nat,
    maxGroups: nat,
    order: seq<Id>,                  // peers_list
    peers: map<Id, Peer>,
    macTree: map<Mac, Id>,           // which peer's entry holds a MAC
    mc: Index,
    decide: Decision)

  /** The multicast index: lists of entries with equal signature, found through their masters. */
  datatype Index = Index(
    tree: map<nat, Entry>,           // the master of each signature
    masters: set<Entry>,             // entries whose is_master flag is set
    list: map<Entry, seq<Entry>>)    // the linked list each used entry is in

  // ---- signatures ----

  /** compute_sig_for_group: the low 23 bits of the group address */
  function Sig(e: Entry): nat { e.group % 0x80_0000 }

  /** compute_sig_for_mac: the low 23 bits of the MAC */
  function MacSig(m: Mac): nat { (m.b3 % 0x80) * 0x1_0000 + m.b4 * 0x100 + m.b5 }

  predicate IsMulticast(m: Mac) { m.b0 == 0x01 && m.b1 == 0x00 && m.b2 == 0x5e }

  /** Section 6.4 of RFC 1112: the low 23 bits of the group, behind 01-00-5E and a zero bit. */
  function GroupMac(group: nat): Mac {
    Mac(0x01, 0x00, 0x5e, group / 0x1_0000 % 0x80, group / 0x100 % 0x100, group % 0x100)
  }

  /**
   * A multicast MAC and a group have the same signature exactly when the
   * standard maps the group to the MAC, apart from the MAC's 24th bit, which
   * the signature ignores and the standard keeps zero.
   */
  lemma SigIsGroupMac(m: Mac, e: Entry)
    requires IsMulticast(m)
    ensures MacSig(m) == Sig(e) <==> m.(b3 := m.b3 % 0x80) == GroupMac(e.group)
  {
    var g := e.group;
    var hi, mid, lo := g / 0x1_0000 % 0x80, g / 0x100 % 0x100, g % 0x100;
    assert g % 0x80_0000 == hi * 0x1_0000 + mid * 0x100 + lo by { LowBits(g); }
  }

  lemma LowBits(g: nat)
    ensures g % 0x80_0000 == g / 0x1_0000 % 0x80 * 0x1_0000 + g / 0x100 % 0x100 * 0x100 + g % 0x100
  {
    var q, r := g / 0x100, g % 0x100;
    assert g == q * 0x100 + r && g / 0x1_0000 == q / 0x100;
    var q2, r2 := q / 0x100, q % 0x100;
    var q3, r3 := q2 / 0x80, q2 % 0x80;
    assert g == q3 * 0x80_0000 + (r3 * 0x1_0000 + r2 * 0x100 + r);
  }

  // ---- MAC learning ----

  /** The reference table: most recent last, at most `max` entries. */
  function Lru(macs: seq<Mac>, m: Mac, max: nat): seq<Mac> {
    var l := Remove(macs, m) + [m];
    if |l| > max then l[1..] else l
  }

  ghost predicate MacsOk(d: Decider, p: Id)
    requires p in d.peers
  {
    var macs := d.peers[p].macs;
    && |macs| + d.peers[p].macFree == d.maxMacs && NoDup(macs)
    && (forall m {:trigger m in macs} :: m in macs ==> m in d.macTree && d.macTree[m] == p)
  }

  ghost predicate OwnerOk(d: Decider, m: Mac)
    requires m in d.macTree
  {
    d.macTree[m] in d.peers && m in d.peers[d.macTree[m]].macs
  }

  /** The MAC tree is the union of the peers' used lists, with one owner per MAC. */
  ghost predicate MacInv(d: Decider) {
    && 0 < d.maxMacs
    && (forall p {:trigger MacsOk(d, p)} :: p in d.peers ==> MacsOk(d, p))
    && (forall m {:trigger OwnerOk(d, m)} :: m in d.macTree ==> OwnerOk(d, m))
  }

  /** Take a MAC away from another peer. */
  function Disassociate(d: Decider, m: Mac): Decider
    requires m in d.macTree && d.macTree[m] in d.peers
  {
    var q := d.macTree[m];
    var pe := d.peers[q];
    d.(macTree := d.macTree - {m}, peers := d.peers[q := pe.(macs := Remove(pe.macs, m), macFree := pe.macFree + 1)])
  }

  function FillEntry(d: Decider, p: Id, m: Mac): Decider
    requires p in d.peers && d.peers[p].macFree > 0
  {
    var pe := d.peers[p];
    d.(macTree := d.macTree[m := p], peers := d.peers[p := pe.(macs := pe.macs + [m], macFree := pe.macFree - 1)])
  }

  /** Put `m` in a free entry of peer `p`; if there is none, in its oldest used one. */
  function TakeEntry(d: Decider, p: Id, m: Mac): Decider
    requires MacInv(d) && p in d.peers
  {
    var macs := d.peers[p].macs;
    assert MacsOk(d, p) && (macs != [] ==> macs[0] in macs);
    FillEntry(if d.peers[p].macFree > 0 then d else Disassociate(d, macs[0]), p, m)
  }

  /** add_mac_to_peer */
  function AddMac(d: Decider, p: Id, m: Mac): Decider
    requires MacInv(d) && p in d.peers
  {
    assert MacsOk(d, p);
    if m in d.macTree && d.macTree[m] == p then
      d.(peers := d.peers[p := d.peers[p].(macs := Remove(d.peers[p].macs, m) + [m])])
    else
      var d1 := if m in d.macTree then DisassociateKeeps(d, m); Disassociate(d, m) else d;
      TakeEntry(d1, p, m)
  }

  lemma DisassociateKeeps(d: Decider, m: Mac)
    requires MacInv(d) && m in d.macTree
    ensures d.macTree[m] in d.peers && MacInv(Disassociate(d, m))
  {
    assert OwnerOk(d, m);
    var d' := Disassociate(d, m);
    assert MacsOk(d, d.macTree[m]);
    forall q | q in d'.peers ensures MacsOk(d', q) { assert MacsOk(d, q); }
    forall x | x in d'.macTree ensures OwnerOk(d', x) { assert OwnerOk(d, x); }
  }

  lemma FillEntryKeeps(d: Decider, p: Id, m: Mac)
    requires MacInv(d) && p in d.peers && m !in d.macTree && d.peers[p].macFree > 0
    ensures MacInv(FillEntry(d, p, m))
  {
    assert MacsOk(d, p) && m !in d.peers[p].macs;
    var d' := FillEntry(d, p, m);
    forall q | q in d'.peers ensures MacsOk(d', q) { assert MacsOk(d, q); }
    forall x | x in d'.macTree ensures OwnerOk(d', x) {
      if x != m { assert OwnerOk(d, x); }
    }
  }

  lemma TakeEntryKeeps(d: Decider, p: Id, m: Mac)
    requires MacInv(d) && p in d.peers && m !in d.macTree
    ensures MacInv(TakeEntry(d, p, m))
    ensures TakeEntry(d, p, m) == d.(macTree := TakeEntry(d, p, m).macTree, peers :=
              d.peers[p := TakeEntry(d, p, m).peers[p]])
    ensures TakeEntry(d, p, m).peers[p].macs == Lru(d.peers[p].macs, m, d.maxMacs)
    ensures m in TakeEntry(d, p, m).macTree && TakeEntry(d, p, m).macTree[m] == p
  {
    var macs := d.peers[p].macs;
    assert MacsOk(d, p) && m !in macs;
    if d.peers[p].macFree == 0 {
      assert macs[0] in macs;
      DisassociateKeeps(d, macs[0]);
      FillEntryKeeps(Disassociate(d, macs[0]), p, m);
      assert (macs + [m])[1..] == macs[1..] + [m];
    } else {
      FillEntryKeeps(d, p, m);
    }
  }

  /**
   * Learning is a bounded per-peer LRU: the MAC becomes the most recent one of
   * `p`, leaves any other peer, and pushes out the oldest MAC of `p` only when
   * it is new to a full `p`; everything else stays.
   */
  lemma LearningIsLru(d: Decider, p: Id, m: Mac)
    requires MacInv(d) && p in d.peers
    ensures
      var d' := AddMac(d, p, m);
      && MacInv(d') && d'.peers.Keys == d.peers.Keys
      && m in d'.macTree && d'.macTree[m] == p
      && (forall q :: q in d.peers ==>
            d'.peers[q].macs == if q == p then Lru(d.peers[p].macs, m, d.maxMacs) else Remove(d.peers[q].macs, m))
  {
    assert MacsOk(d, p);
    forall q | q in d.peers ensures m in d.macTree && d.macTree[m] == q <==> m in d.peers[q].macs {
      assert MacsOk(d, q);
      if m in d.macTree { assert OwnerOk(d, m); }
    }
    if m in d.macTree && d.macTree[m] == p {
      var d' := AddMac(d, p, m);
      forall q | q in d'.peers ensures MacsOk(d', q) { assert MacsOk(d, q); }
      forall x | x in d'.macTree ensures OwnerOk(d', x) { assert OwnerOk(d, x); }
    } else {
      if m in d.macTree {
        DisassociateKeeps(d, m);
        TakeEntryKeeps(Disassociate(d, m), p, m);
      } else {
        TakeEntryKeeps(d, p, m);
      }
      hide MacInv, Lru, TakeEntry;
    }
  }
}
