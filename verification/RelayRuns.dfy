/**
 * The client's events, each built from the single steps, and what holds after
 * every one of them.
 */
module RelayRuns {
  import opened Bytes
  import opened Lists
  import opened DataProtoModel
  import opened RelayModel

  /** Same peers, with the same links and the same relays. */
  ghost predicate SameLinks(c: Client, c': Client) {
    && c'.peers.Keys == c.peers.Keys
    && forall p :: p in c.peers ==> c'.peers[p].haveLink == c.peers[p].haveLink && c'.peers[p].isRelay == c.peers[p].isRelay
  }

  lemma AssignOne(c: Client)
    requires Core(c) && c.waiting != [] && c.relays != []
    ensures c.waiting[0] in c.peers && c.relays[0] in c.peers
    ensures
      var p, r := c.waiting[0], c.relays[0];
      var c1 := Unregister(c, p);
      && Core(c1) && Unconnected(c1, p) && r in c1.peers && c1.peers[r].isRelay
      && Core(Install(c1, p, r)) && |Install(c1, p, r).waiting| < |c.waiting|
      && Install(c1, p, r).relays == c.relays && SameLinks(c, Install(c1, p, r))
  {
    var p, r := c.waiting[0], c.relays[0];
    assert p in c.waiting && r in c.relays;
    assert PeerOk(c, p) && PeerOk(c, r);
    UnregisterKeepsCore(c, p);
    InstallKeepsCore(Unregister(c, p), p, r);
  }

  /** assign_relays: the first relay takes waiting peers until none is left */
  function AssignRelays(c: Client): (r: Client)
    requires Core(c)
    ensures Settled(r) && r.relays == c.relays && SameLinks(c, r)
    decreases |c.waiting|
  {
    if c.waiting == [] || c.relays == [] then c
    else
      AssignOne(c);
      AssignRelays(Install(Unregister(c, c.waiting[0]), c.waiting[0], c.relays[0]))
  }

  /** peer_enable_relay_provider */
  function Listed(c: Client, p: Id): Client
    requires p in c.peers
  {
    c.(relays := c.relays + [p], peers := c.peers[p := c.peers[p].(isRelay := true, users := [])])
  }

  lemma ListedKeepsCore(c: Client, p: Id)
    requires Core(c) && p in c.peers && c.peers[p].haveLink && !c.peers[p].isRelay
    ensures Core(Listed(c, p))
  {
    var c' := Listed(c, p);
    assert PeerOk(c, p);
    forall q | q in c'.peers ensures PeerOk(c', q) { assert PeerOk(c, q); }
    forall q | q in c'.peers ensures FlowIs(c', q) { assert FlowIs(c, q); }
  }

  function EnableProvider(c: Client, p: Id): (r: Client)
    requires Core(c) && p in c.peers && c.peers[p].haveLink && !c.peers[p].isRelay
    ensures Settled(r) && r.waiting == [] && r.relays == c.relays + [p] && SameLinks(Listed(c, p), r) && r.peers[p].isRelay
  {
    ListedKeepsCore(c, p);
    AssignRelays(Listed(c, p))
  }

  /** Everyone who waits gets the relay that has been one for longest. */
  lemma {:induction false} FirstRelayTakes(c: Client, q: Id)
    requires Core(c) && c.relays != [] && q in c.peers
    requires c.peers[q].waiting || c.peers[q].relaying == Some(c.relays[0])
    ensures AssignRelays(c).peers[q].relaying == Some(c.relays[0])
    decreases |c.waiting|
  {
    assert PeerOk(c, q);
    if c.waiting != [] {
      AssignOne(c);
      var p, r := c.waiting[0], c.relays[0];
      assert p in c.waiting && PeerOk(c, p);
      FirstRelayTakes(Install(Unregister(c, p), p, r), q);
    }
  }

  /** One turn of the loop of peer_disable_relay_provider. */
  function DropUser(c: Client, u: Id): Client
    requires Core(c) && u in c.peers && c.peers[u].relaying.Some?
  {
    FreeRelayingKeepsCore(c, u);
    Register(FreeRelaying(c, u), u)
  }

  lemma DropUserFacts(c: Client, p: Id)
    requires Core(c) && p in c.peers && c.peers[p].users != []
    ensures
      var u := c.peers[p].users[0];
      && u in c.peers && c.peers[u].relaying == Some(p)
      && var c' := DropUser(c, u);
         Core(c') && c'.relays == c.relays && SameLinks(c, c') && |c'.peers[p].users| < |c.peers[p].users|
  {
    var u := c.peers[p].users[0];
    assert PeerOk(c, p) && u in c.peers[p].users;
    assert PeerOk(c, u);
    FreeRelayingKeepsCore(c, u);
    RegisterKeepsCore(FreeRelaying(c, u), u);
  }

  function DropUsers(c: Client, p: Id): (r: Client)
    requires Core(c) && p in c.peers
    ensures Core(r) && r.relays == c.relays && SameLinks(c, r) && r.peers[p].users == []
    decreases |c.peers[p].users|
  {
    if c.peers[p].users == [] then c
    else
      DropUserFacts(c, p);
      DropUsers(DropUser(c, c.peers[p].users[0]), p)
  }

  function Unlisted(c: Client, p: Id): Client
    requires p in c.peers
  {
    c.(relays := Remove(c.relays, p), peers := c.peers[p := c.peers[p].(isRelay := false)])
  }

  lemma UnlistedKeepsCore(c: Client, p: Id)
    requires Core(c) && p in c.peers && c.peers[p].users == []
    ensures Core(Unlisted(c, p))
  {
    var c' := Unlisted(c, p);
    assert PeerOk(c, p);
    forall q | q in c'.peers ensures PeerOk(c', q) { assert PeerOk(c, q); }
    forall q | q in c'.peers ensures FlowIs(c', q) { assert FlowIs(c, q); }
  }

  /** peer_disable_relay_provider */
  function DisableProvider(c: Client, p: Id): (r: Client)
    requires Core(c) && p in c.peers && c.peers[p].isRelay
    ensures Settled(r) && r.peers.Keys == c.peers.Keys
    ensures !r.peers[p].isRelay && r.peers[p].haveLink == c.peers[p].haveLink && r.relays == Remove(c.relays, p)
  {
    var c1 := DropUsers(c, p);
    UnlistedKeepsCore(c1, p);
    AssignRelays(Unlisted(c1, p))
  }

  lemma FreeLinkSettles(c: Client, p: Id)
    requires Settled(c) && p in c.peers && c.peers[p].haveLink && !c.peers[p].isRelay
    ensures
      var r := FreeLink(c, p);
      Settled(r) && Unconnected(r, p) && !r.peers[p].isRelay && r.peers.Keys == c.peers.Keys
  {
    FreeLinkKeepsCore(c, p);
    hide Core;
  }

  /** The linked case of peer_cleanup_connections: stop being a relay, then free the link. */
  function CloseLink(c: Client, p: Id): (r: Client)
    requires Settled(c) && p in c.peers && c.peers[p].haveLink
    ensures Settled(r) && Unconnected(r, p) && !r.peers[p].isRelay && r.peers.Keys == c.peers.Keys
  {
    var c1 := if c.peers[p].isRelay then DisableProvider(c, p) else c;
    FreeLinkSettles(c1, p);
    FreeLink(c1, p)
  }

  /** peer_cleanup_connections */
  function Cleanup(c: Client, p: Id): (r: Client)
    requires Settled(c) && p in c.peers
    ensures Settled(r) && Unconnected(r, p) && !r.peers[p].isRelay && r.peers.Keys == c.peers.Keys
  {
    assert PeerOk(c, p);
    if c.peers[p].haveLink then CloseLink(c, p)
    else if c.peers[p].relaying.Some? then FreeRelayingKeepsCore(c, p); FreeRelaying(c, p)
    else if c.peers[p].waiting then UnregisterKeepsCore(c, p); Unregister(c, p)
    else c
  }

  /** peer_need_relay */
  function NeedRelay(c: Client, p: Id): (r: Client)
    requires Settled(c) && p in c.peers && !c.peers[p].isRelay
    ensures Settled(r) && p in r.peers && !r.peers[p].haveLink && (r.peers[p].waiting || r.peers[p].relaying.Some?)
  {
    if c.peers[p].waiting then assert PeerOk(c, p); c
    else
      var c1 := Cleanup(c, p);
      RegisterKeepsCore(c1, p);
      NeededStays(Register(c1, p), p);
      AssignRelays(Register(c1, p))
  }

  lemma {:induction false} NeededStays(c: Client, p: Id)
    requires Core(c) && p in c.peers && (c.peers[p].waiting || c.peers[p].relaying.Some?)
    ensures var r := AssignRelays(c); p in r.peers && (r.peers[p].waiting || r.peers[p].relaying.Some?) && !r.peers[p].haveLink
    decreases |c.waiting|
  {
    if c.waiting == [] || c.relays == [] {
      assert PeerOk(c, p);
    } else {
      AssignOne(c);
      var q, r := c.waiting[0], c.relays[0];
      assert PeerOk(c, q) && PeerOk(c, r) by { assert q in c.waiting && r in c.relays; }
      NeededStays(Install(Unregister(c, q), q, r), p);
    }
  }

  /** The peer has a relay or waits for one. */
  ghost predicate Served(c: Client, u: Id) {
    u in c.peers && (c.peers[u].waiting || c.peers[u].relaying.Some?)
  }

  lemma DropServes(c: Client, p: Id, u: Id)
    requires Core(c) && p in c.peers && c.peers[p].users != [] && Served(c, u)
    ensures c.peers[p].users[0] in c.peers && c.peers[c.peers[p].users[0]].relaying == Some(p)
    ensures Served(DropUser(c, c.peers[p].users[0]), u)
  {
    DropUserFacts(c, p);
    var v := c.peers[p].users[0];
    FreeRelayingKeepsCore(c, v);
  }

  lemma {:induction false} DropAllServes(c: Client, p: Id, u: Id)
    requires Core(c) && p in c.peers && Served(c, u)
    ensures Served(DropUsers(c, p), u)
    decreases |c.peers[p].users|
  {
    hide Core, Served, DropUser;
    if c.peers[p].users != [] {
      DropUserFacts(c, p);
      DropServes(c, p, u);
      DropAllServes(DropUser(c, c.peers[p].users[0]), p, u);
    }
  }

  /** Who used a relay that goes uses another one afterwards, or waits. */
  lemma UsersMoveOn(c: Client, p: Id, u: Id)
    requires Core(c) && p in c.peers && c.peers[p].isRelay && u in c.peers[p].users
    ensures
      var r := DisableProvider(c, p);
      u in r.peers && (r.peers[u].waiting || (r.peers[u].relaying.Some? && r.peers[u].relaying != Some(p)))
  {
    assert PeerOk(c, p) && PeerOk(c, u);
    assert Served(c, u);
    DropAllServes(c, p, u);
    var c1 := DropUsers(c, p);
    UnlistedKeepsCore(c1, p);
    NeededStays(Unlisted(c1, p), u);
    assert PeerOk(DisableProvider(c, p), u);
  }

  // ---- events ----

  datatype Event =
    | AddPeer(peer: Id, buf: Id)
    | RemovePeer(peer: Id)
    | NewLink(peer: Id, ok: bool)              // a fresh link is set up, or that fails
    | Reset(peer: Id)
    | WantRelay(peer: Id)                      // direct connection turned out impossible
    | Report(peer: Id, up: bool, server: bool) // the link goes up or down; can the peer relay?
    | StartSend(sink: Id, buf: Id)
    | SendDone(sink: Id)

  ghost predicate Possible(c: Client, e: Event) {
    match e
    case AddPeer(p, b) => p !in c.peers && b !in c.dp.bufs && b !in c.dp.freed
    case RemovePeer(p) => p in c.peers
    case NewLink(p, ok) => p in c.peers
    case Reset(p) => p in c.peers
    case WantRelay(p) => p in c.peers
    case Report(p, up, server) => p in c.peers && c.peers[p].haveLink
    case StartSend(s, b) => Enabled(c.dp, Send(s, b))
    case SendDone(s) => Enabled(c.dp, Done(s))
  }

  lemma AddPeerKeeps(c: Client, p: Id, b: Id)
    requires Settled(c) && Possible(c, AddPeer(p, b))
    ensures Enabled(c.dp, FlowInit(p, b)) && Settled(WithPeer(c, p, b))
  {
    StepKeepsInv(c.dp, FlowInit(p, b));
    var c' := WithPeer(c, p, b);
    forall q | q in c'.peers ensures PeerOk(c', q) { assert q in c.peers ==> PeerOk(c, q); }
    forall q | q in c'.peers ensures FlowIs(c', q) { assert q in c.peers ==> FlowIs(c, q); }
  }

  /** peer_add: a new peer with an unattached local flow */
  function WithPeer(c: Client, p: Id, b: Id): Client {
    c.(peers := c.peers[p := Peer(false, None, false, false, [])],
       dp := c.dp.(flows := c.dp.flows[p := Flow(None, b)], bufs := c.dp.bufs[b := Buffer(Some(p), None)]))
  }

  lemma WithoutPeerKeeps(c: Client, p: Id)
    requires Settled(c) && Unconnected(c, p) && !c.peers[p].isRelay
    ensures Enabled(c.dp, FlowFree(p)) && Settled(WithoutPeer(c, p))
  {
    hide Inv, FlowFreeStep;
    DesiredIs(c, p);
    FlowFreeKeepsInv(c.dp, p);
    assert PeerOk(c, p);
    var c' := WithoutPeer(c, p);
    forall q | q in c'.peers ensures PeerOk(c', q) { assert PeerOk(c, q); }
    forall q | q in c'.peers ensures FlowIs(c', q) { assert FlowIs(c, q); }
  }

  /** The end of peer_remove. */
  function WithoutPeer(c: Client, p: Id): Client
    requires Core(c) && Unconnected(c, p)
  {
    DesiredIs(c, p);
    c.(peers := c.peers - {p}, dp := FlowFreeStep(c.dp, p))
  }

  lemma QueueKeeps(c: Client, op: Op)
    requires Settled(c) && Enabled(c.dp, op) && (op.Send? || op.Done?)
    ensures Settled(c.(dp := Step(c.dp, op)))
  {
    hide Inv, DoneStep;
    StepKeepsInv(c.dp, op);
    var c' := c.(dp := Step(c.dp, op));
    assert c'.dp.flows == c.dp.flows && c'.dp.sinks.Keys == c.dp.sinks.Keys;
    forall q | q in c'.peers ensures PeerOk(c', q) { assert PeerOk(c, q); }
    forall q | q in c'.peers ensures FlowIs(c', q) { assert FlowIs(c, q); }
  }

  function LinkStep(c: Client, p: Id, ok: bool): (r: Client)
    requires Settled(c) && p in c.peers
    ensures Settled(r)
  {
    var c1 := Cleanup(c, p);
    if ok then InitLinkKeepsCore(c1, p); InitLink(c1, p) else c1
  }

  function ReportStep(c: Client, p: Id, up: bool, server: bool): (r: Client)
    requires Settled(c) && p in c.peers && c.peers[p].haveLink
    ensures Settled(r)
  {
    if up then if server && !c.peers[p].isRelay then EnableProvider(c, p) else c
    else if c.peers[p].isRelay then DisableProvider(c, p) else c
  }

  /**
   * One event.  After it every peer is linked, relaying, waiting or none of
   * these, all lists and flows agree with that, and nobody waits while a relay
   * exists.
   */
  function Handle(c: Client, e: Event): (r: Client)
    requires Settled(c) && Possible(c, e)
    ensures Settled(r)
  {
    match e
    case AddPeer(p, b) => AddPeerKeeps(c, p, b); WithPeer(c, p, b)
    case RemovePeer(p) => var c1 := Cleanup(c, p); WithoutPeerKeeps(c1, p); WithoutPeer(c1, p)
    case NewLink(p, ok) => LinkStep(c, p, ok)
    case Reset(p) => Cleanup(c, p)
    case WantRelay(p) => if c.peers[p].isRelay then c else NeedRelay(c, p)
    case Report(p, up, server) => ReportStep(c, p, up, server)
    case StartSend(s, b) => QueueKeeps(c, Send(s, b)); c.(dp := Step(c.dp, Send(s, b)))
    case SendDone(s) => QueueKeeps(c, Done(s)); c.(dp := Step(c.dp, Done(s)))
  }

  // ---- what each event means ----

  /** For `q` nothing has changed but perhaps the relay it uses or whether it still waits for one. */
  ghost predicate Keeps(c: Client, r: Client, q: Id) {
    && q in c.peers && q in r.peers
    && r.peers[q].haveLink == c.peers[q].haveLink && r.peers[q].isRelay == c.peers[q].isRelay
    && (Served(r, q) <==> Served(c, q))
  }

  ghost predicate OthersKeep(c: Client, r: Client, p: Id) {
    forall q {:trigger Keeps(c, r, q)} :: q in c.peers && q != p ==> Keeps(c, r, q)
  }

  lemma KeepsTrans(a: Client, b: Client, c: Client, q: Id)
    requires Keeps(a, b, q) && Keeps(b, c, q)
    ensures Keeps(a, c, q)
  {
  }

  lemma {:induction false} AssignKeeps(c: Client, q: Id)
    requires Core(c) && q in c.peers
    ensures Keeps(c, AssignRelays(c), q)
    decreases |c.waiting|
  {
    if c.waiting != [] && c.relays != [] {
      AssignOne(c);
      var p, r := c.waiting[0], c.relays[0];
      var c1 := Install(Unregister(c, p), p, r);
      AssignOneKeeps(c, q);
      hide Core, Install, Unregister, Keeps;
      AssignKeeps(c1, q);
      KeepsTrans(c, c1, AssignRelays(c1), q);
    }
  }

  lemma AssignOneKeeps(c: Client, q: Id)
    requires Core(c) && c.waiting != [] && c.relays != [] && q in c.peers
    ensures
      var p, r := c.waiting[0], c.relays[0];
      && p in c.peers && Core(Unregister(c, p)) && Unconnected(Unregister(c, p), p)
      && r in Unregister(c, p).peers && Unregister(c, p).peers[r].isRelay
      && q in Install(Unregister(c, p), p, r).peers && Keeps(c, Install(Unregister(c, p), p, r), q)
  {
    AssignOne(c);
    var p := c.waiting[0];
    assert PeerOk(c, p) by { assert p in c.waiting; }
  }

  lemma {:induction false} DropUsersKeeps(c: Client, p: Id, q: Id)
    requires Core(c) && p in c.peers && q in c.peers
    ensures Keeps(c, DropUsers(c, p), q)
    decreases |c.peers[p].users|
  {
    if c.peers[p].users != [] {
      var u := c.peers[p].users[0];
      DropUserFacts(c, p);
      DropOneKeeps(c, p, q);
      hide Core, DropUser, Keeps;
      DropUsersKeeps(DropUser(c, u), p, q);
      KeepsTrans(c, DropUser(c, u), DropUsers(c, p), q);
    }
  }

  lemma DropOneKeeps(c: Client, p: Id, q: Id)
    requires Core(c) && p in c.peers && q in c.peers && c.peers[p].users != []
    ensures
      var u := c.peers[p].users[0];
      u in c.peers && c.peers[u].relaying == Some(p) && q in DropUser(c, u).peers && Keeps(c, DropUser(c, u), q)
  {
    DropUserFacts(c, p);
    FreeRelayingKeepsCore(c, c.peers[p].users[0]);
  }

  lemma EnableKeeps(c: Client, p: Id)
    requires Core(c) && p in c.peers && c.peers[p].haveLink && !c.peers[p].isRelay
    ensures OthersKeep(c, EnableProvider(c, p), p)
    ensures EnableProvider(c, p).peers[p].haveLink && EnableProvider(c, p).peers.Keys == c.peers.Keys
  {
    ListedKeepsCore(c, p);
    forall q | q in c.peers && q != p ensures Keeps(c, EnableProvider(c, p), q) {
      AssignKeeps(Listed(c, p), q);
    }
  }

  lemma DisableKeeps(c: Client, p: Id)
    requires Core(c) && p in c.peers && c.peers[p].isRelay
    ensures OthersKeep(c, DisableProvider(c, p), p)
  {
    hide Core;
    var c1 := DropUsers(c, p);
    UnlistedKeepsCore(c1, p);
    forall q | q in c.peers && q != p ensures Keeps(c, DisableProvider(c, p), q) {
      DropUsersKeeps(c, p, q);
      AssignKeeps(Unlisted(c1, p), q);
    }
  }

  /**
   * A report that a link is up makes the peer a relay if it can be one and
   * otherwise changes nothing; a report that it is down ends that.  Every link
   * stays, and so does everything about the other peers.
   */
  lemma ReportMeans(c: Client, p: Id, up: bool, server: bool)
    requires Settled(c) && p in c.peers && c.peers[p].haveLink
    ensures
      var r := ReportStep(c, p, up, server);
      && OthersKeep(c, r, p) && r.peers.Keys == c.peers.Keys && r.peers[p].haveLink
      && (up && server ==> p in r.relays && r.peers[p].isRelay && r.waiting == [])
      && (up && !server ==> r == c)
      && (!up ==> p !in r.relays && !r.peers[p].isRelay)
      && (!up && !c.peers[p].isRelay ==> r == c)
  {
    var r := ReportStep(c, p, up, server);
    assert PeerOk(c, p);
    assert c.peers[p].isRelay ==> c.relays != [];
    hide Core, EnableProvider, DisableProvider;
    if r == c {
      assert OthersKeep(c, r, p);
    } else if up {
      EnableKeeps(c, p);
    } else {
      DisableKeeps(c, p);
      assert PeerOk(r, p) by { SettledOk(r, p); }
    }
  }

  lemma SettledOk(c: Client, p: Id)
    requires Settled(c) && p in c.peers
    ensures PeerOk(c, p)
  {
  }

  lemma FreeLinkKeeps(c: Client, p: Id)
    requires Core(c) && p in c.peers && c.peers[p].haveLink && !c.peers[p].isRelay
    ensures OthersKeep(c, FreeLink(c, p), p)
  {
    FreeLinkKeepsCore(c, p);
  }

  lemma CloseLinkKeeps(c: Client, p: Id)
    requires Settled(c) && p in c.peers && c.peers[p].haveLink
    ensures OthersKeep(c, CloseLink(c, p), p)
  {
    hide Core, DisableProvider;
    var c1 := if c.peers[p].isRelay then DisableProvider(c, p) else c;
    if c.peers[p].isRelay {
      DisableKeeps(c, p);
    }
    FreeLinkSettles(c1, p);
    FreeLinkKeeps(c1, p);
    hide FreeLink;
    var r := FreeLink(c1, p);
    forall q | q in c.peers && q != p ensures Keeps(c, r, q) {
      assert Keeps(c, c1, q) && Keeps(c1, r, q);
    }
  }

  lemma FreeRelayingOthers(c: Client, p: Id)
    requires Core(c) && p in c.peers && c.peers[p].relaying.Some?
    ensures OthersKeep(c, FreeRelaying(c, p), p)
  {
    FreeRelayingKeepsCore(c, p);
    hide Core, DetachStep;
  }

  /** Giving up the connections of one peer leaves the others what they have. */
  lemma CleanupKeeps(c: Client, p: Id)
    requires Settled(c) && p in c.peers
    ensures OthersKeep(c, Cleanup(c, p), p)
  {
    hide Core, CloseLink, FreeRelaying;
    if c.peers[p].haveLink {
      CloseLinkKeeps(c, p);
    } else if c.peers[p].relaying.Some? {
      FreeRelayingOthers(c, p);
    }
  }

  /** The peer the event is about. */
  function About(e: Event): Option<Id> {
    match e
    case StartSend(_, _) => None
    case SendDone(_) => None
    case _ => Some(e.peer)
  }

  /** What an event does to the peer it is about. */
  ghost predicate Meant(c: Client, e: Event, r: Client)
    requires Possible(c, e)
  {
    match e
    case AddPeer(p, b) => Unconnected(r, p) && !r.peers[p].isRelay
    case RemovePeer(p) => p !in r.peers
    case NewLink(p, ok) => if ok then p in r.peers && r.peers[p].haveLink && !r.peers[p].isRelay else Unconnected(r, p) && !r.peers[p].isRelay
    case Reset(p) => Unconnected(r, p) && !r.peers[p].isRelay
    case WantRelay(p) => if c.peers[p].isRelay then r == c else Served(r, p) && !r.peers[p].haveLink
    case Report(p, up, server) =>
      && p in r.peers && r.peers[p].haveLink
      && (r.peers[p].isRelay <==> up && (server || c.peers[p].isRelay))
    case StartSend(s, b) => r.peers == c.peers && s in r.dp.sinks && r.dp.sinks[s].busy == Some(b)
    case SendDone(s) => r.peers == c.peers && s in r.dp.sinks && r.dp.sinks[s].busy.None?
  }

  lemma LinkMeans(c: Client, p: Id, ok: bool)
    requires Settled(c) && p in c.peers
    ensures
      var r := LinkStep(c, p, ok);
      && OthersKeep(c, r, p) && r.peers.Keys == c.peers.Keys && !r.peers[p].isRelay
      && if ok then r.peers[p].haveLink else Unconnected(r, p)
  {
    CleanupKeeps(c, p);
    var c1 := Cleanup(c, p);
    hide Core, Cleanup;
    if ok {
      InitLinkKeepsCore(c1, p);
      var r := InitLink(c1, p);
      forall q | q in c.peers && q != p ensures Keeps(c, r, q) { assert Keeps(c, c1, q); }
    }
  }

  lemma NeedMeans(c: Client, p: Id)
    requires Settled(c) && p in c.peers && !c.peers[p].isRelay
    ensures OthersKeep(c, NeedRelay(c, p), p)
  {
    hide Core;
    if c.peers[p].waiting {
      assert OthersKeep(c, c, p);
    } else {
      CleanupKeeps(c, p);
      var c1 := Cleanup(c, p);
      RegisterKeepsCore(c1, p);
      forall q | q in c.peers && q != p ensures Keeps(c, NeedRelay(c, p), q) {
        assert Keeps(c, c1, q);
        AssignKeeps(Register(c1, p), q);
      }
    }
  }

  lemma RemoveMeans(c: Client, p: Id)
    requires Settled(c) && p in c.peers
    ensures OthersKeep(c, Handle(c, RemovePeer(p)), p)
  {
    CleanupKeeps(c, p);
    var c1 := Cleanup(c, p);
    hide Core, Cleanup;
    WithoutPeerKeeps(c1, p);
    forall q | q in c.peers && q != p ensures Keeps(c, Handle(c, RemovePeer(p)), q) { assert Keeps(c, c1, q); }
  }

  /**
   * Event by event: which peer is there, linked, a relay, served or without any
   * connection afterwards; and every other peer is still there and keeps its
   * link, its being a relay, and having or awaiting a relay.
   */
  lemma HandleMeans(c: Client, e: Event)
    requires Settled(c) && Possible(c, e)
    ensures Meant(c, e, Handle(c, e))
    ensures forall q :: q in c.peers && Some(q) != About(e) ==> Keeps(c, Handle(c, e), q)
    ensures forall q :: q in Handle(c, e).peers && Some(q) != About(e) ==> q in c.peers
  {
    hide Core, AssignRelays;
    match e
    case AddPeer(p, b) => AddPeerKeeps(c, p, b);
    case RemovePeer(p) =>
      RemoveMeans(c, p);
      WithoutPeerKeeps(Cleanup(c, p), p);
    case NewLink(p, ok) => LinkMeans(c, p, ok);
    case Reset(p) => CleanupKeeps(c, p);
    case WantRelay(p) => if !c.peers[p].isRelay { NeedMeans(c, p); }
    case Report(p, up, server) => ReportMeans(c, p, up, server);
    case StartSend(s, b) => QueueKeeps(c, Send(s, b));
    case SendDone(s) =>
      QueueKeeps(c, Done(s));
      assert Inv(c.dp) by { SettledInv(c); }
      DoneFrees(c.dp, s);
  }

  lemma SettledInv(c: Client)
    requires Settled(c)
    ensures Inv(c.dp)
  {
  }

  // ---- runs ----

  ghost predicate RunOf(c: Client, e: seq<Event>)
    requires Settled(c)
    decreases |e|
  {
    e == [] || (Possible(c, e[0]) && RunOf(Handle(c, e[0]), e[1..]))
  }

  ghost function After(c: Client, e: seq<Event>): (c': Client)
    requires Settled(c) && RunOf(c, e)
    ensures Settled(c')
    decreases |e|
  {
    if e == [] then c else After(Handle(c, e[0]), e[1..])
  }

  /** A client without peers. */
  function Start(): (c: Client)
    ensures Settled(c)
  {
    Client(map[], [], [], World(map[], map[], map[], {}))
  }

  /** The state of one peer, said without the invariant's bookkeeping. */
  ghost predicate PeerSound(c: Client, p: Id)
    requires p in c.peers
  {
    var pe := c.peers[p];
    && !(pe.haveLink && pe.relaying.Some?) && !(pe.haveLink && pe.waiting) && !(pe.relaying.Some? && pe.waiting)
    && (pe.relaying.Some? ==>
          var r := pe.relaying.value;
          r != p && r in c.peers && c.peers[r].haveLink && c.peers[r].isRelay && p in c.peers[r].users && r in c.dp.sinks)
    && (pe.waiting ==> forall q :: q in c.peers ==> !c.peers[q].isRelay)
  }

  /** The buffer of a peer's local flow is on the sink the peer's state calls for, or still busy on an earlier one. */
  ghost predicate FlowSound(c: Client, p: Id)
    requires p in c.peers
  {
    && p in c.dp.flows && c.dp.flows[p].buf in c.dp.bufs
    && var b := c.dp.flows[p].buf;
       c.dp.bufs[b].sink == Target(c.peers[p], p) || (Detaching(c.dp, b) && IsBusy(c.dp, b))
  }

  /**
   * In every state a client can reach: at most one of linked, relaying and
   * waiting per peer; a relaying peer goes through another peer, which is
   * linked and lists it; a waiting peer means that nobody is a relay; and
   * every local flow feeds the sink it should.
   */
  lemma EveryReachableState(e: seq<Event>, p: Id)
    requires RunOf(Start(), e) && p in After(Start(), e).peers
    ensures PeerSound(After(Start(), e), p) && FlowSound(After(Start(), e), p)
  {
    hide RunOf, After;
    var c := After(Start(), e);
    assert PeerOk(c, p) && FlowIs(c, p);
    if c.peers[p].relaying.Some? {
      var r := c.peers[p].relaying.value;
      assert PeerOk(c, r) && FlowIs(c, r);
    }
    if c.peers[p].waiting {
      forall q | q in c.peers ensures !c.peers[q].isRelay { assert PeerOk(c, q); }
    }
    OwnFacts(c.dp, p);
  }
}
