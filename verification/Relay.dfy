/**
 * DataProto and the client's peers as objects updated in place, call by call.
 */
module Relay {
  import opened Bytes
  import opened Lists
  import opened DataProtoModel
  import opened RelayModel
  import opened RelayRuns

  class DataProto {
    var flows: map<Id, Flow>
    var bufs: map<Id, Buffer>
    var sinks: map<Id, Sink>
    ghost var freed: set<Id>

    ghost function State(): World
      reads this
    {
      World(flows, bufs, sinks, freed)
    }

    constructor ()
      ensures State() == World(map[], map[], map[], {})
    {
      flows, bufs, sinks, freed := map[], map[], map[], {};
    }

    method BufferAttach(b: Id, s: Id)
      requires b in bufs && bufs[b].sink.None?
      modifies this
      ensures State() == BufAttach(old(State()), b, s)
    {
      bufs := bufs[b := bufs[b].(sink := Some(s))];
    }

    method BufferDetach(b: Id)
      requires b in bufs && bufs[b].sink.Some? && bufs[b].sink.value in sinks
      modifies this
      ensures State() == BufDetach(old(State()), b)
    {
      var s := bufs[b].sink.value;
      if sinks[s].busy == Some(b) {
        sinks := sinks[s := sinks[s].(busy := None)];
      }
      if sinks[s].detaching == Some(b) {
        sinks := sinks[s := sinks[s].(detaching := None)];
      }
      bufs := bufs[b := bufs[b].(sink := None)];
    }

    method BufferFree(b: Id)
      requires b in bufs && bufs[b].sink.None?
      modifies this
      ensures State() == BufFree(old(State()), b)
    {
      bufs := bufs - {b};
      freed := freed + {b};
    }

    method ScheduleBufferDetach(b: Id)
      requires b in bufs && bufs[b].sink.Some? && bufs[b].sink.value in sinks && IsBusy(State(), b)
      requires sinks[bufs[b].sink.value].detaching in {None, Some(b)}
      modifies this
      ensures State() == ScheduleDetach(old(State()), b)
    {
      var s := bufs[b].sink.value;
      if sinks[s].detaching == Some(b) {
        return;
      }
      sinks := sinks[s := sinks[s].(detaching := Some(b))];
    }

    method FinishBufferDetach(b: Id)
      requires b in bufs && Detaching(State(), b)
      requires bufs[b].flow.Some? ==> bufs[b].flow.value in flows
      modifies this
      ensures State() == FinishDetach(old(State()), b)
    {
      BufferDetach(b);
      if bufs[b].flow.None? {
        BufferFree(b);
      } else if flows[bufs[b].flow.value].desired.Some? {
        BufferAttach(b, flows[bufs[b].flow.value].desired.value);
      }
    }

    /** DataProtoFlow_Free */
    method FreeFlow(f: Id)
      requires Reaches(State(), f)
      modifies this
      ensures State() == FlowFreeStep(old(State()), f)
      ensures old(Inv(State()) && Enabled(State(), FlowFree(f))) ==> Inv(State())
    {
      if Inv(State()) && Enabled(State(), FlowFree(f)) { FlowFreeKeepsInv(State(), f); }
      hide Inv, Enabled;
      var b := flows[f].buf;
      flows := flows - {f};
      if bufs[b].sink.Some? {
        if sinks[bufs[b].sink.value].busy == Some(b) {
          ScheduleBufferDetach(b);
          bufs := bufs[b := bufs[b].(flow := None)];
        } else {
          BufferDetach(b);
          BufferFree(b);
        }
      } else {
        BufferFree(b);
      }
    }

    /** DataProtoFlow_Attach */
    method AttachFlow(f: Id, s: Id)
      requires Reaches(State(), f)
      modifies this
      ensures State() == AttachStep(old(State()), f, s)
      ensures old(Inv(State()) && Enabled(State(), Attach(f, s))) ==> Inv(State())
    {
      if Inv(State()) && Enabled(State(), Attach(f, s)) { AttachKeepsInv(State(), f, s); }
      hide Inv, Enabled;
      var b := flows[f].buf;
      if bufs[b].sink.Some? {
        if sinks[bufs[b].sink.value].busy == Some(b) {
          ScheduleBufferDetach(b);
        } else {
          BufferDetach(b);
          BufferAttach(b, s);
        }
      } else {
        BufferAttach(b, s);
      }
      flows := flows[f := flows[f].(desired := Some(s))];
    }

    /** DataProtoFlow_Detach */
    method DetachFlow(f: Id)
      requires Reaches(State(), f) && bufs[flows[f].buf].sink.Some?
      modifies this
      ensures State() == DetachStep(old(State()), f)
      ensures old(Inv(State()) && Enabled(State(), Detach(f))) ==> Inv(State())
    {
      if Inv(State()) && Enabled(State(), Detach(f)) { DetachKeepsInv(State(), f); }
      hide Inv, Enabled;
      var b := flows[f].buf;
      if sinks[bufs[b].sink.value].busy == Some(b) {
        ScheduleBufferDetach(b);
      } else {
        BufferDetach(b);
      }
      flows := flows[f := flows[f].(desired := None)];
    }

    /** DataProtoSink_Init */
    method InitSink(s: Id)
      requires Inv(State()) && Enabled(State(), SinkInit(s))
      modifies this
      ensures Inv(State()) && State() == Step(old(State()), SinkInit(s))
    {
      StepKeepsInv(State(), SinkInit(s));
      hide Inv;
      sinks := sinks[s := Sink(None, None)];
    }

    /** DataProtoSink_Free */
    method FreeSink(s: Id)
      requires Inv(State()) && Enabled(State(), SinkFree(s))
      modifies this
      ensures Inv(State()) && State() == SinkFreeStep(old(State()), s)
    {
      SinkFreeKeepsInv(State(), s);
      assert SinkOk(State(), s);
      if sinks[s].detaching.Some? {
        assert BufOk(State(), sinks[s].detaching.value);
        hide Inv;
        FinishBufferDetach(sinks[s].detaching.value);
      }
      hide Inv;
      sinks := sinks - {s};
    }

    /** The sink's queue finishes a packet and calls the busy handler, if one is set. */
    method FinishSend(s: Id)
      requires Inv(State()) && Enabled(State(), Done(s))
      modifies this
      ensures Inv(State()) && State() == DoneStep(old(State()), s)
    {
      DoneKeepsInv(State(), s);
      assert SinkOk(State(), s);
      var b := sinks[s].busy.value;
      assert BufOk(State(), b);
      hide Inv;
      sinks := sinks[s := sinks[s].(busy := None)];
      if sinks[s].detaching == Some(b) {
        FinishBufferDetach(b);
      }
    }
  }

  class RelayClient {
    var peers: map<Id, Peer>
    var relays: seq<Id>
    var waiting: seq<Id>
    const dp: DataProto

    ghost function State(): Client
      reads this, dp
    {
      Client(peers, relays, waiting, dp.State())
    }

    constructor ()
      ensures State() == Start() && fresh(dp)
    {
      peers, relays, waiting := map[], [], [];
      dp := new DataProto();
    }

    method RegisterNeed(p: Id)
      requires p in peers
      modifies this
      ensures State() == Register(old(State()), p)
    {
      waiting := waiting + [p];
      peers := peers[p := peers[p].(waiting := true)];
    }

    method UnregisterNeed(p: Id)
      requires p in peers
      modifies this
      ensures State() == Unregister(old(State()), p)
    {
      waiting := Remove(waiting, p);
      peers := peers[p := peers[p].(waiting := false)];
    }

    method InstallRelaying(p: Id, r: Id)
      requires Core(State()) && Unconnected(State(), p) && r in peers && peers[r].isRelay
      modifies this, dp
      ensures State() == Install(old(State()), p, r)
    {
      hide Inv, AttachStep;
      DesiredIs(State(), p);
      DesiredIs(State(), r);
      assert PeerOk(State(), r);
      peers := peers[r := peers[r].(users := peers[r].users + [p])];
      dp.AttachFlow(p, r);
      peers := peers[p := peers[p].(relaying := Some(r))];
    }

    method FreeRelay(p: Id)
      requires Core(State()) && p in peers && peers[p].relaying.Some?
      modifies this, dp
      ensures State() == FreeRelaying(old(State()), p)
    {
      hide Inv, DetachStep;
      DesiredIs(State(), p);
      assert PeerOk(State(), p);
      var r := peers[p].relaying.value;
      dp.DetachFlow(p);
      peers := peers[r := peers[r].(users := Remove(peers[r].users, p))];
      peers := peers[p := peers[p].(relaying := None)];
    }

    /** assign_relays */
    method Assign()
      requires Core(State())
      modifies this, dp
      ensures Settled(State()) && State() == AssignRelays(old(State()))
    {
      while waiting != [] && relays != []
        invariant Core(State())
        invariant AssignRelays(State()) == AssignRelays(old(State()))
        decreases |waiting|
      {
        hide Core, Install;
        AssignOne(State());
        var p, r := waiting[0], relays[0];
        UnregisterNeed(p);
        InstallRelaying(p, r);
      }
    }

    /** peer_disable_relay_provider */
    method DisableRelay(p: Id)
      requires Core(State()) && p in peers && peers[p].isRelay
      modifies this, dp
      ensures Settled(State()) && State() == DisableProvider(old(State()), p)
    {
      hide Core, Install;
      while peers[p].users != []
        invariant p in peers && Core(State())
        invariant DropUsers(State(), p) == DropUsers(old(State()), p)
        decreases |peers[p].users|
      {
        DropUserFacts(State(), p);
        var u := peers[p].users[0];
        FreeRelay(u);
        assert u in peers;
        RegisterNeed(u);
      }
      UnlistedKeepsCore(State(), p);
      relays := Remove(relays, p);
      peers := peers[p := peers[p].(isRelay := false)];
      Assign();
    }

    /** peer_enable_relay_provider */
    method EnableRelay(p: Id)
      requires Core(State()) && p in peers && peers[p].haveLink && !peers[p].isRelay
      modifies this, dp
      ensures Settled(State()) && State() == EnableProvider(old(State()), p)
    {
      ListedKeepsCore(State(), p);
      hide Core;
      relays := relays + [p];
      peers := peers[p := peers[p].(isRelay := true, users := [])];
      Assign();
    }

    /** peer_free_link */
    method FreePeerLink(p: Id)
      requires Core(State()) && p in peers && peers[p].haveLink && !peers[p].isRelay
      modifies this, dp
      ensures State() == FreeLink(old(State()), p)
    {
      hide Inv, DetachStep, SinkFreeStep;
      LinkFreeable(State(), p);
      dp.DetachFlow(p);
      dp.FreeSink(p);
      peers := peers[p := peers[p].(haveLink := false)];
    }

    /** peer_cleanup_connections */
    method CleanupConnections(p: Id)
      requires Settled(State()) && p in peers
      modifies this, dp
      ensures Settled(State()) && State() == Cleanup(old(State()), p)
    {
      assert PeerOk(State(), p);
      hide Core, PeerOk;
      if peers[p].haveLink {
        if peers[p].isRelay {
          DisableRelay(p);
        }
        FreePeerLink(p);
      } else if peers[p].relaying.Some? {
        FreeRelay(p);
      } else if peers[p].waiting {
        UnregisterNeed(p);
      }
      assert State() == Cleanup(old(State()), p);
    }

    /** peer_init_link, once the transport is up */
    method InitPeerLink(p: Id)
      requires Core(State()) && Unconnected(State(), p)
      modifies this, dp
      ensures State() == InitLink(old(State()), p)
    {
      DesiredIs(State(), p);
      hide Core, Inv, AttachStep;
      dp.InitSink(p);
      InvReaches(dp.State(), p);
      dp.AttachFlow(p, p);
      peers := peers[p := peers[p].(haveLink := true)];
    }

    /** What peer_bind_one_address and peer_connect do first: a fresh link, or a reset peer. */
    method FreshLink(p: Id, ok: bool)
      requires Settled(State()) && p in peers
      modifies this, dp
      ensures Settled(State()) && State() == LinkStep(old(State()), p, ok)
      ensures p in peers && peers[p].haveLink == ok && peers[p].relaying.None? && !peers[p].waiting && !peers[p].isRelay
    {
      hide Core, Cleanup;
      CleanupConnections(p);
      if ok {
        InitPeerLink(p);
      }
      assert State() == LinkStep(old(State()), p, ok);
    }

    /** peer_dataproto_handler */
    method LinkReport(p: Id, up: bool, server: bool)
      requires Settled(State()) && p in peers && peers[p].haveLink
      modifies this, dp
      ensures Settled(State()) && State() == ReportStep(old(State()), p, up, server)
      ensures OthersKeep(old(State()), State(), p) && p in peers && peers[p].haveLink
      ensures peers[p].isRelay <==> up && (server || old(peers[p].isRelay))
      ensures up && server ==> p in relays && waiting == []
    {
      ReportMeans(State(), p, up, server);
      hide Core;
      if up {
        if server && !peers[p].isRelay {
          EnableRelay(p);
        }
      } else if peers[p].isRelay {
        DisableRelay(p);
      }
    }

    /** peer_need_relay */
    method NeedARelay(p: Id)
      requires Settled(State()) && p in peers && !peers[p].isRelay
      modifies this, dp
      ensures Settled(State()) && State() == NeedRelay(old(State()), p)
    {
      if peers[p].waiting {
        return;
      }
      CleanupConnections(p);
      RegisterKeepsCore(State(), p);
      hide Core;
      RegisterNeed(p);
      Assign();
    }
  }
}
