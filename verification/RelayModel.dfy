/**
 * The client's peers: direct links, relays, peers that use a relay, and peers
 * that wait for one; with the local data flow of every peer.
 */
module RelayModel {
  import opened Bytes
  import opened Lists
  import opened DataProtoModel

  datatype Peer = Peer(haveLink: bool, relaying: Option<Id>, waiting: bool, isRelay: bool, users: seq<Id>)

  /** A peer's local flow and the sink of its link carry the peer's own id. */
  datatype Client = Client(peers: map<Id, Peer>, relays: seq<Id>, waiting: seq<Id>, dp: World)

  // ---- the invariant ----

  /** At most one of linked, relaying and waiting; relays are linked; lists and fields agree. */
  ghost predicate PeerOk(c: Client, p: Id)
    requires p in c.peers
  {
    var pe := c.peers[p];
    && !(pe.haveLink && pe.relaying.Some?) && !(pe.haveLink && pe.waiting) && !(pe.relaying.Some? && pe.waiting)
    && (pe.isRelay ==> pe.haveLink)
    && (pe.isRelay <==> p in c.relays)
    && (pe.waiting <==> p in c.waiting)
    && (pe.relaying.Some? ==>
          var r := pe.relaying.value;
          r in c.peers && c.peers[r].isRelay && p in c.peers[r].users)
    && NoDup(pe.users) && (!pe.isRelay ==> pe.users == [])
    && (forall u {:trigger u in pe.users} :: u in pe.users ==> u in c.peers && c.peers[u].relaying == Some(p))
  }

  ghost predicate ListsOk(c: Client) {
    && NoDup(c.relays) && (forall p :: p in c.relays ==> p in c.peers)
    && NoDup(c.waiting) && (forall p :: p in c.waiting ==> p in c.peers)
  }

  /** Where a peer's local flow should go: its own link, its relay, or nowhere. */
  function Target(pe: Peer, p: Id): Option<Id> {
    if pe.haveLink then Some(p) else pe.relaying
  }

  ghost predicate FlowIs(c: Client, p: Id)
    requires p in c.peers
  {
    && p in c.dp.flows && c.dp.flows[p].desired == Target(c.peers[p], p)
    && (c.peers[p].haveLink <==> p in c.dp.sinks)
  }

  ghost predicate FlowsOk(c: Client) {
    && (forall p {:trigger FlowIs(c, p)} :: p in c.peers ==> FlowIs(c, p))
    && (forall p :: p in c.dp.flows ==> p in c.peers)
    && (forall s :: s in c.dp.sinks ==> s in c.peers)
  }

  ghost predicate Core(c: Client) {
    ListsOk(c) && (forall p {:trigger PeerOk(c, p)} :: p in c.peers ==> PeerOk(c, p)) && FlowsOk(c) && Inv(c.dp)
  }

  /** Between events nobody waits while there is a relay. */
  ghost predicate Settled(c: Client) {
    Core(c) && (c.waiting == [] || c.relays == [])
  }

  // ---- single steps ----

  /** peer_register_need_relay */
  function Register(c: Client, p: Id): Client
    requires p in c.peers
  {
    c.(waiting := c.waiting + [p], peers := c.peers[p := c.peers[p].(waiting := true)])
  }

  /** peer_unregister_need_relay */
  function Unregister(c: Client, p: Id): Client
    requires p in c.peers
  {
    c.(waiting := Remove(c.waiting, p), peers := c.peers[p := c.peers[p].(waiting := false)])
  }

  ghost predicate Unconnected(c: Client, p: Id) {
    p in c.peers && !c.peers[p].haveLink && c.peers[p].relaying.None? && !c.peers[p].waiting
  }

  lemma DesiredIs(c: Client, p: Id)
    requires Core(c) && p in c.peers
    ensures p in c.dp.flows && c.dp.flows[p].desired == Target(c.peers[p], p) && (c.peers[p].haveLink <==> p in c.dp.sinks)
    ensures Reaches(c.dp, p) && (c.dp.flows[p].desired.Some? ==> c.dp.bufs[c.dp.flows[p].buf].sink.Some?)
  {
    assert FlowIs(c, p);
    InvReaches(c.dp, p);
  }

  /** peer_install_relaying */
  function Install(c: Client, p: Id, r: Id): Client
    requires Core(c) && Unconnected(c, p) && r in c.peers && c.peers[r].isRelay
  {
    DesiredIs(c, p);
    DesiredIs(c, r);
    assert PeerOk(c, r);
    var peers := c.peers[r := c.peers[r].(users := c.peers[r].users + [p])];
    c.(peers := peers[p := peers[p].(relaying := Some(r))], dp := AttachStep(c.dp, p, r))
  }

  /** peer_free_relaying */
  function FreeRelaying(c: Client, p: Id): Client
    requires Core(c) && p in c.peers && c.peers[p].relaying.Some?
  {
    DesiredIs(c, p);
    assert PeerOk(c, p);
    var r := c.peers[p].relaying.value;
    var peers := c.peers[r := c.peers[r].(users := Remove(c.peers[r].users, p))];
    c.(peers := peers[p := peers[p].(relaying := None)], dp := DetachStep(c.dp, p))
  }

  /** peer_init_link, when the transport came up */
  function InitLink(c: Client, p: Id): Client
    requires Core(c) && Unconnected(c, p)
  {
    DesiredIs(c, p);
    assert Enabled(c.dp, SinkInit(p));
    StepKeepsInv(c.dp, SinkInit(p));
    var dp := Step(c.dp, SinkInit(p));
    c.(peers := c.peers[p := c.peers[p].(haveLink := true)], dp := AttachStep(dp, p, p))
  }

  /** Before a link can be freed, the peer must no longer be a relay. */
  lemma LinkFreeable(c: Client, p: Id)
    requires Core(c) && p in c.peers && c.peers[p].haveLink && !c.peers[p].isRelay
    ensures Reaches(c.dp, p) && c.dp.bufs[c.dp.flows[p].buf].sink.Some? && Enabled(c.dp, Detach(p))
    ensures Inv(DetachStep(c.dp, p)) && Enabled(DetachStep(c.dp, p), SinkFree(p))
  {
    DesiredIs(c, p);
    DetachKeepsInv(c.dp, p);
    var dp := DetachStep(c.dp, p);
    forall q | q in dp.flows ensures dp.flows[q].desired != Some(p) {
      if q != p {
        assert FlowIs(c, q) && PeerOk(c, q);
      }
    }
  }

  /** peer_free_link */
  function FreeLink(c: Client, p: Id): Client
    requires Core(c) && p in c.peers && c.peers[p].haveLink && !c.peers[p].isRelay
  {
    LinkFreeable(c, p);
    c.(peers := c.peers[p := c.peers[p].(haveLink := false)], dp := SinkFreeStep(DetachStep(c.dp, p), p))
  }

  // ---- what the single steps keep ----

  lemma RegisterKeepsCore(c: Client, p: Id)
    requires Core(c) && Unconnected(c, p)
    ensures Core(Register(c, p))
  {
    var c' := Register(c, p);
    assert PeerOk(c, p);
    forall q | q in c'.peers ensures PeerOk(c', q) { assert PeerOk(c, q); }
    forall q | q in c'.peers ensures FlowIs(c', q) { assert FlowIs(c, q); }
  }

  lemma UnregisterKeepsCore(c: Client, p: Id)
    requires Core(c) && p in c.peers && c.peers[p].waiting
    ensures Core(Unregister(c, p)) && Unconnected(Unregister(c, p), p)
  {
    var c' := Unregister(c, p);
    assert PeerOk(c, p);
    forall q | q in c'.peers ensures PeerOk(c', q) { assert PeerOk(c, q); }
    forall q | q in c'.peers ensures FlowIs(c', q) { assert FlowIs(c, q); }
  }

  lemma InstallPeer(c: Client, c': Client, p: Id, r: Id, q: Id)
    requires p in c.peers && r in c.peers && q in c.peers && Unconnected(c, p) && c.peers[r].isRelay
    requires PeerOk(c, p) && PeerOk(c, r) && PeerOk(c, q)
    requires c'.relays == c.relays && c'.waiting == c.waiting
    requires c'.peers == c.peers[r := c.peers[r].(users := c.peers[r].users + [p])][p := c.peers[p].(relaying := Some(r))]
    ensures PeerOk(c', q)
  {
    assert p !in c.peers[r].users && p !in c.peers[q].users;
  }

  lemma FreeRelayingPeer(c: Client, c': Client, p: Id, r: Id, q: Id)
    requires p in c.peers && r in c.peers && q in c.peers && c.peers[p].relaying == Some(r)
    requires PeerOk(c, p) && PeerOk(c, r) && PeerOk(c, q)
    requires c'.relays == c.relays && c'.waiting == c.waiting
    requires c'.peers == c.peers[r := c.peers[r].(users := Remove(c.peers[r].users, p))][p := c.peers[p].(relaying := None)]
    ensures PeerOk(c', q)
  {
    hide Remove;
    assert q != r ==> p !in c.peers[q].users;
  }

  lemma InstallKeepsCore(c: Client, p: Id, r: Id)
    requires Core(c) && Unconnected(c, p) && r in c.peers && c.peers[r].isRelay
    ensures Core(Install(c, p, r))
  {
    hide Inv, AttachStep;
    DesiredIs(c, p);
    DesiredIs(c, r);
    assert PeerOk(c, p) && PeerOk(c, r) && r != p;
    AttachKeepsInv(c.dp, p, r);
    hide PeerOk;
    var c' := Install(c, p, r);
    forall q | q in c'.peers ensures FlowIs(c', q) { assert FlowIs(c, q); }
    hide FlowsOk;
    forall q | q in c'.peers ensures PeerOk(c', q) {
      assert PeerOk(c, q);
      hide PeerOk, Core;
      InstallPeer(c, c', p, r, q);
    }
  }

  lemma FreeRelayingKeepsCore(c: Client, p: Id)
    requires Core(c) && p in c.peers && c.peers[p].relaying.Some?
    ensures Core(FreeRelaying(c, p)) && Unconnected(FreeRelaying(c, p), p)
    ensures FreeRelaying(c, p).relays == c.relays && FreeRelaying(c, p).waiting == c.waiting
  {
    hide Inv, DetachStep;
    var c' := FreeRelaying(c, p);
    DesiredIs(c, p);
    assert PeerOk(c, p);
    var r := c.peers[p].relaying.value;
    assert PeerOk(c, r) && r != p;
    DetachKeepsInv(c.dp, p);
    forall q | q in c'.peers ensures FlowIs(c', q) { assert FlowIs(c, q); }
    hide FlowsOk;
    forall q | q in c'.peers ensures PeerOk(c', q) {
      assert PeerOk(c, q);
      hide PeerOk, Core;
      FreeRelayingPeer(c, c', p, r, q);
    }
  }

  lemma InitLinkKeepsCore(c: Client, p: Id)
    requires Core(c) && Unconnected(c, p)
    ensures Core(InitLink(c, p))
  {
    hide Inv, AttachStep;
    DesiredIs(c, p);
    assert PeerOk(c, p);
    StepKeepsInv(c.dp, SinkInit(p));
    AttachKeepsInv(Step(c.dp, SinkInit(p)), p, p);
    var c' := InitLink(c, p);
    forall q | q in c'.peers ensures FlowIs(c', q) { assert FlowIs(c, q); }
    hide FlowsOk;
    forall q | q in c'.peers ensures PeerOk(c', q) { assert PeerOk(c, q); }
  }

  lemma FreeLinkKeepsCore(c: Client, p: Id)
    requires Core(c) && p in c.peers && c.peers[p].haveLink && !c.peers[p].isRelay
    ensures Core(FreeLink(c, p)) && Unconnected(FreeLink(c, p), p)
  {
    hide Inv, DetachStep, SinkFreeStep;
    LinkFreeable(c, p);
    assert PeerOk(c, p);
    SinkFreeKeepsInv(DetachStep(c.dp, p), p);
    var c' := FreeLink(c, p);
    forall q | q in c'.peers ensures FlowIs(c', q) { assert FlowIs(c, q); }
    hide FlowsOk;
    forall q | q in c'.peers ensures PeerOk(c', q) { assert PeerOk(c, q); }
  }
}
