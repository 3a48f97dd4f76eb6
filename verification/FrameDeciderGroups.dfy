/**
 * The multicast index: entries with one signature are in one list with one
 * master, through joins, evictions, timeouts and the loss of a master.
 */
module FrameDeciderGroups {
  import opened Bytes
  import opened Lists
  import opened NodeLists
  import opened FrameDeciderModel

  ghost predicate EntryOk(ix: Index, e: Entry)
    requires e in ix.list
  {
    var l := ix.list[e];
    && e in l && NoDup(l)
    && (forall x {:trigger x in l} :: x in l ==> x in ix.list && ix.list[x] == l && Sig(x) == Sig(e))
    && Sig(e) in ix.tree && ix.tree[Sig(e)] in l
    && (e in ix.masters <==> ix.tree[Sig(e)] == e)
  }

  ghost predicate SigOk(ix: Index, s: nat)
    requires s in ix.tree
  {
    ix.tree[s] in ix.list && Sig(ix.tree[s]) == s
  }

  ghost predicate IndexInv(ix: Index) {
    && (forall e {:trigger EntryOk(ix, e)} :: e in ix.list ==> EntryOk(ix, e))
    && (forall s {:trigger SigOk(ix, s)} :: s in ix.tree ==> SigOk(ix, s))
    && (forall e :: e in ix.masters ==> e in ix.list)
  }

  /** add_to_multicast */
  function AddTo(ix: Index, e: Entry): Index
    requires Sig(e) in ix.tree ==> ix.tree[Sig(e)] in ix.list
  {
    var s := Sig(e);
    if s in ix.tree then
      var l := InsertAfter(ix.list[ix.tree[s]], ix.tree[s], e);
      ix.(masters := ix.masters - {e}, list := Relink(ix.list, l))
    else Index(ix.tree[s := e], ix.masters + {e}, ix.list[e := [e]])
  }

  /** remove_from_multicast */
  function RemoveFrom(ix: Index, e: Entry): Index
    requires e in ix.list && e in ix.list[e]
  {
    var s, l := Sig(e), ix.list[e];
    var list := Relink(ix.list, Remove(l, e)) - {e};
    if e !in ix.masters then Index(ix.tree, ix.masters - {e}, list)
    else if |l| == 1 then Index(ix.tree - {s}, ix.masters - {e}, list)
    else
      var heir := NextOrPrev(l, e);
      Index(ix.tree[s := heir], ix.masters + {heir} - {e}, list)
  }

  /** An open multicast decision visits a new entry if its master is still to come. */
  function CastAdd(c: Decision, ix: Index, e: Entry): Decision {
    if c.Multicast? && Sig(e) in ix.tree then c.(entries := InsertAfter(c.entries, ix.tree[Sig(e)], e)) else c
  }

  /** The entry the iterator stands at is `e`, but nothing will move it on. */
  predicate StrandedAt(c: Decision, e: Entry) {
    c.Multicast? && !c.linked && c.entries != [] && c.entries[0] == e
  }

  /** An open multicast decision skips a removed entry. */
  function CastRemove(c: Decision, e: Entry): Decision {
    if StrandedAt(c, e) then Lost else if c.Multicast? then c.(entries := Remove(c.entries, e)) else c
  }

  /** An open multicast decision names used entries, each once. */
  ghost predicate CastOk(d: Decider) {
    d.decide.Multicast? ==> NoDup(d.decide.entries) && forall e :: e in d.decide.entries ==> e in d.mc.list
  }

  lemma SameSigSameList(ix: Index, e: Entry, x: Entry)
    requires IndexInv(ix) && e in ix.list && x in ix.list && Sig(e) == Sig(x)
    ensures ix.list[e] == ix.list[x] && x in ix.list[e]
  {
    assert EntryOk(ix, e) && EntryOk(ix, x);
  }

  /** `ix'` is `ix` with the list of signature `s` replaced by `l` and its master by one of `l`. */
  ghost predicate Relisted(ix: Index, ix': Index, s: nat, l: seq<Entry>) {
    RelistedLists(ix, ix', s, l) && RelistedHeads(ix, ix', s, l)
  }

  ghost predicate RelistedLists(ix: Index, ix': Index, s: nat, l: seq<Entry>) {
    && NoDup(l) && (forall y {:trigger y in l} :: y in l ==> Sig(y) == s && y in ix'.list && ix'.list[y] == l)
    && (forall y :: y in ix'.list ==> y in l || (y in ix.list && Sig(y) != s))
    && (forall y :: y in ix.list && Sig(y) != s ==> y in ix'.list && ix'.list[y] == ix.list[y])
  }

  ghost predicate RelistedHeads(ix: Index, ix': Index, s: nat, l: seq<Entry>) {
    && (forall t :: t != s ==> (t in ix'.tree <==> t in ix.tree) && (t in ix.tree ==> ix'.tree[t] == ix.tree[t]))
    && (if l == [] then s !in ix'.tree else s in ix'.tree && ix'.tree[s] in l)
    && (forall y :: y in ix'.masters <==> (y in ix.masters && Sig(y) != s) || (l != [] && y == ix'.tree[s]))
  }

  lemma RelistedKeeps(ix: Index, ix': Index, s: nat, l: seq<Entry>)
    requires IndexInv(ix) && Relisted(ix, ix', s, l)
    ensures IndexInv(ix')
  {
    forall x | x in ix'.list ensures EntryOk(ix', x) {
      if x !in l {
        assert EntryOk(ix, x);
      }
    }
    forall t | t in ix'.tree ensures SigOk(ix', t) {
      if t != s { assert SigOk(ix, t); }
    }
  }

  lemma MastersAre(ix: Index, s: nat)
    requires IndexInv(ix)
    ensures forall y :: y in ix.masters && Sig(y) == s ==> s in ix.tree && ix.tree[s] == y
  {
    forall y | y in ix.masters && Sig(y) == s ensures s in ix.tree && ix.tree[s] == y { assert EntryOk(ix, y); }
  }

  lemma AddKeepsIndex(ix: Index, e: Entry)
    requires IndexInv(ix) && e !in ix.list
    ensures Sig(e) in ix.tree ==> ix.tree[Sig(e)] in ix.list
    ensures IndexInv(AddTo(ix, e)) && AddTo(ix, e).list.Keys == ix.list.Keys + {e}
  {
    var s := Sig(e);
    ListIsExact(ix, s);
    MastersAre(ix, s);
    var l := if s in ix.tree then InsertAfter(ix.list[ix.tree[s]], ix.tree[s], e) else [e];
    if s in ix.tree { assert SigOk(ix, s) && EntryOk(ix, ix.tree[s]); }
    hide IndexInv, InsertAfter, SigOk, EntryOk;
    AddRelistsLists(ix, e, l);
    AddRelistsHeads(ix, e, l);
    hide RelistedLists, RelistedHeads;
    RelistedKeeps(ix, AddTo(ix, e), s, l);
  }

  lemma AddRelistsLists(ix: Index, e: Entry, l: seq<Entry>)
    requires e !in ix.list
    requires Sig(e) in ix.tree ==>
      && ix.tree[Sig(e)] in ix.list && Sig(ix.tree[Sig(e)]) == Sig(e) && NoDup(ix.list[ix.tree[Sig(e)]])
      && (forall y :: y in ix.list[ix.tree[Sig(e)]] <==> y in ix.list && Sig(y) == Sig(e))
      && l == InsertAfter(ix.list[ix.tree[Sig(e)]], ix.tree[Sig(e)], e)
    requires Sig(e) !in ix.tree ==> l == [e] && forall y :: y in ix.list ==> Sig(y) != Sig(e)
    ensures RelistedLists(ix, AddTo(ix, e), Sig(e), l) && AddTo(ix, e).list.Keys == ix.list.Keys + {e}
  {
    hide InsertAfter;
  }

  lemma AddRelistsHeads(ix: Index, e: Entry, l: seq<Entry>)
    requires e !in ix.list && e in l && (forall y :: y in ix.masters ==> y in ix.list)
    requires forall y :: y in ix.masters && Sig(y) == Sig(e) ==> Sig(e) in ix.tree && ix.tree[Sig(e)] == y
    requires Sig(e) in ix.tree ==>
      ix.tree[Sig(e)] in ix.list && ix.tree[Sig(e)] in l && ix.tree[Sig(e)] in ix.masters && Sig(ix.tree[Sig(e)]) == Sig(e)
    ensures RelistedHeads(ix, AddTo(ix, e), Sig(e), l)
  {
    hide InsertAfter, Relink;
  }

  lemma RemoveRelists(ix: Index, e: Entry)
    requires e in ix.list && e in ix.list[e] && NoDup(ix.list[e])
    requires forall y :: y in ix.list[e] <==> y in ix.list && Sig(y) == Sig(e)
    requires Sig(e) in ix.tree && ix.tree[Sig(e)] in ix.list[e]
    requires forall y :: y in ix.list && Sig(y) == Sig(e) ==> (y in ix.masters <==> ix.tree[Sig(e)] == y)
    requires forall y :: y in ix.masters ==> y in ix.list
    ensures Relisted(ix, RemoveFrom(ix, e), Sig(e), Remove(ix.list[e], e))
    ensures RemoveFrom(ix, e).list.Keys == ix.list.Keys - {e}
  {
    hide Remove, NextOrPrev, RelistedLists, RelistedHeads;
    assert RelistedLists(ix, RemoveFrom(ix, e), Sig(e), Remove(ix.list[e], e)) by {
      RemoveRelistsLists(ix, e);
    }
    RemoveRelistsHeads(ix, e);
  }

  lemma RemoveRelistsLists(ix: Index, e: Entry)
    requires e in ix.list && e in ix.list[e] && NoDup(ix.list[e])
    requires forall y :: y in ix.list[e] <==> y in ix.list && Sig(y) == Sig(e)
    ensures RelistedLists(ix, RemoveFrom(ix, e), Sig(e), Remove(ix.list[e], e))
  {
    hide Remove, NextOrPrev;
  }

  lemma RemoveRelistsHeads(ix: Index, e: Entry)
    requires e in ix.list && e in ix.list[e] && NoDup(ix.list[e])
    requires forall y :: y in ix.list[e] <==> y in ix.list && Sig(y) == Sig(e)
    requires Sig(e) in ix.tree && ix.tree[Sig(e)] in ix.list[e]
    requires forall y :: y in ix.list && Sig(y) == Sig(e) ==> (y in ix.masters <==> ix.tree[Sig(e)] == y)
    requires forall y :: y in ix.masters ==> y in ix.list
    ensures RelistedHeads(ix, RemoveFrom(ix, e), Sig(e), Remove(ix.list[e], e))
  {
    hide Remove, NextOrPrev, Relink;
  }

  lemma RemoveKeepsIndex(ix: Index, e: Entry)
    requires IndexInv(ix) && e in ix.list
    ensures e in ix.list[e] && IndexInv(RemoveFrom(ix, e)) && RemoveFrom(ix, e).list.Keys == ix.list.Keys - {e}
  {
    var s := Sig(e);
    assert EntryOk(ix, e);
    assert SigOk(ix, s) && EntryOk(ix, ix.tree[s]);
    SameSigSameList(ix, e, ix.tree[s]);
    ListIsExact(ix, s);
    forall y | y in ix.list && Sig(y) == s ensures y in ix.masters <==> ix.tree[s] == y { assert EntryOk(ix, y); }
    var l := Remove(ix.list[e], e);
    hide IndexInv, Remove, NextOrPrev, EntryOk, SigOk;
    RemoveRelists(ix, e);
    RelistedKeeps(ix, RemoveFrom(ix, e), s, l);
  }

  /** The list of a signature's master holds each used entry with that signature exactly once. */
  lemma ListIsExact(ix: Index, s: nat)
    requires IndexInv(ix)
    ensures s in ix.tree ==>
      ix.tree[s] in ix.list && NoDup(ix.list[ix.tree[s]]) &&
      forall e :: e in ix.list[ix.tree[s]] <==> e in ix.list && Sig(e) == s
    ensures s !in ix.tree ==> forall e :: e in ix.list ==> Sig(e) != s
  {
    if s in ix.tree {
      assert SigOk(ix, s);
      var m := ix.tree[s];
      assert EntryOk(ix, m);
      forall e | e in ix.list && Sig(e) == s ensures e in ix.list[m] { SameSigSameList(ix, m, e); }
    } else {
      forall e | e in ix.list ensures Sig(e) != s { assert EntryOk(ix, e); }
    }
  }

  // ---- memberships of peers ----

  ghost predicate GroupsOk(d: Decider, p: Id)
    requires p in d.peers
  {
    var groups := d.peers[p].groups;
    && |groups| + d.peers[p].groupFree == d.maxGroups && NoDup(groups)
    && (forall g {:trigger g in groups} :: g in groups ==> Entry(p, g) in d.mc.list)
  }

  ghost predicate UsedOk(d: Decider, e: Entry) {
    e.peer in d.peers && e.group in d.peers[e.peer].groups
  }

  /** The index holds exactly the used entries of the peers. */
  ghost predicate GroupInv(d: Decider) {
    && 0 < d.maxGroups && IndexInv(d.mc)
    && (forall p {:trigger GroupsOk(d, p)} :: p in d.peers ==> GroupsOk(d, p))
    && (forall e {:trigger UsedOk(d, e)} :: e in d.mc.list ==> UsedOk(d, e))
  }

  function WithGroups(d: Decider, p: Id, groups: seq<nat>, free: nat, mc: Index): Decider
    requires p in d.peers
  {
    d.(peers := d.peers[p := d.peers[p].(groups := groups, groupFree := free)], mc := mc)
  }

  /** remove_group_entry: a membership times out */
  function DropGroup(d: Decider, p: Id, g: nat): Decider
    requires p in d.peers && Entry(p, g) in d.mc.list && Entry(p, g) in d.mc.list[Entry(p, g)]
  {
    WithGroups(d, p, Remove(d.peers[p].groups, g), d.peers[p].groupFree + 1, RemoveFrom(d.mc, Entry(p, g)))
      .(decide := CastRemove(d.decide, Entry(p, g)))
  }

  lemma DropGroupKeeps(d: Decider, p: Id, g: nat)
    requires GroupInv(d) && p in d.peers && g in d.peers[p].groups
    ensures Entry(p, g) in d.mc.list && Entry(p, g) in d.mc.list[Entry(p, g)] && GroupInv(DropGroup(d, p, g))
    ensures DropGroup(d, p, g).mc.list.Keys == d.mc.list.Keys - {Entry(p, g)}
    ensures CastOk(d) ==> CastOk(DropGroup(d, p, g))
  {
    hide IndexInv, RemoveFrom, Remove;
    assert GroupsOk(d, p);
    RemoveKeepsIndex(d.mc, Entry(p, g));
    var d' := DropGroup(d, p, g);
    forall q | q in d'.peers ensures GroupsOk(d', q) { assert GroupsOk(d, q); }
    forall e | e in d'.mc.list ensures UsedOk(d', e) { assert UsedOk(d, e); }
  }

  /** Put group `g` in a free entry of peer `p`. */
  function JoinGroup(d: Decider, p: Id, g: nat): Decider
    requires p in d.peers && d.peers[p].groupFree > 0
    requires Sig(Entry(p, g)) in d.mc.tree ==> d.mc.tree[Sig(Entry(p, g))] in d.mc.list
  {
    WithGroups(d, p, d.peers[p].groups + [g], d.peers[p].groupFree - 1, AddTo(d.mc, Entry(p, g)))
      .(decide := CastAdd(d.decide, d.mc, Entry(p, g)))
  }

  lemma JoinGroupKeeps(d: Decider, p: Id, g: nat)
    requires GroupInv(d) && p in d.peers && g !in d.peers[p].groups && d.peers[p].groupFree > 0
    ensures Sig(Entry(p, g)) in d.mc.tree ==> d.mc.tree[Sig(Entry(p, g))] in d.mc.list
    ensures GroupInv(JoinGroup(d, p, g)) && JoinGroup(d, p, g).mc.list.Keys == d.mc.list.Keys + {Entry(p, g)}
    ensures Entry(p, g) !in d.mc.list && (CastOk(d) ==> CastOk(JoinGroup(d, p, g)))
  {
    hide IndexInv, AddTo, InsertAfter;
    assert GroupsOk(d, p);
    assert Entry(p, g) in d.mc.list ==> UsedOk(d, Entry(p, g));
    AddKeepsIndex(d.mc, Entry(p, g));
    var d' := JoinGroup(d, p, g);
    forall q | q in d'.peers ensures GroupsOk(d', q) { assert GroupsOk(d, q); }
    forall e | e in d'.mc.list ensures UsedOk(d', e) {
      if e != Entry(p, g) { assert UsedOk(d, e); }
    }
  }

  /** The groups a peer is known to be in, after one more report: as for MACs, the oldest gives way. */
  function LruGroups(groups: seq<nat>, g: nat, max: nat): seq<nat> {
    var l := Remove(groups, g) + [g];
    if |l| > max then l[1..] else l
  }

  lemma EntryIsUsed(d: Decider, p: Id, g: nat)
    requires GroupInv(d) && p in d.peers && g in d.peers[p].groups
    ensures Entry(p, g) in d.mc.list && Entry(p, g) in d.mc.list[Entry(p, g)]
  {
    assert GroupsOk(d, p) && EntryOk(d.mc, Entry(p, g));
  }

  /** add_group_to_peer, apart from the timer */
  function AddGroup(d: Decider, p: Id, g: nat): Decider
    requires GroupInv(d) && p in d.peers
  {
    assert GroupsOk(d, p);
    var pe := d.peers[p];
    if g in pe.groups then WithGroups(d, p, Remove(pe.groups, g) + [g], pe.groupFree, d.mc)
    else if pe.groupFree > 0 then JoinGroupKeeps(d, p, g); JoinGroup(d, p, g)
    else
      DropGroupKeeps(d, p, pe.groups[0]);
      JoinGroupKeeps(DropGroup(d, p, pe.groups[0]), p, g);
      JoinGroup(DropGroup(d, p, pe.groups[0]), p, g)
  }

  /** A report makes the group the peer's most recent one and keeps the index exact. */
  lemma AddGroupKeeps(d: Decider, p: Id, g: nat)
    requires GroupInv(d) && p in d.peers
    ensures
      var d' := AddGroup(d, p, g);
      && GroupInv(d') && d'.peers.Keys == d.peers.Keys
      && d'.peers[p].groups == LruGroups(d.peers[p].groups, g, d.maxGroups)
      && (forall q :: q in d.peers && q != p ==> d'.peers[q] == d.peers[q])
      && (CastOk(d) ==> CastOk(d'))
  {
    assert GroupsOk(d, p);
    var groups := d.peers[p].groups;
    if g in groups {
      var d' := AddGroup(d, p, g);
      hide IndexInv, Remove;
      forall q | q in d'.peers ensures GroupsOk(d', q) { assert GroupsOk(d, q); }
      forall e | e in d'.mc.list ensures UsedOk(d', e) { assert UsedOk(d, e); }
    } else if d.peers[p].groupFree > 0 {
      JoinGroupKeeps(d, p, g);
      hide GroupInv, AddTo, CastOk;
    } else {
      DropGroupKeeps(d, p, groups[0]);
      JoinGroupKeeps(DropGroup(d, p, groups[0]), p, g);
      assert (groups + [g])[1..] == groups[1..] + [g];
      hide GroupInv, AddTo, RemoveFrom, CastOk;
    }
  }
}
