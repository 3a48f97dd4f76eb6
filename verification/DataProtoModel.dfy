/**
 * Ownership in DataProto: flows, the buffers they own, and the sinks the
 * buffers feed.  A buffer whose packet is being sent cannot be detached at
 * once; it stays with its sink, and may even outlive its flow, until the send
 * is done.
 */
module DataProtoModel {
  import opened Bytes

  type Id = nat

  datatype Flow = Flow(desired: Option<Id>, buf: Id)
  datatype Buffer = Buffer(flow: Option<Id>, sink: Option<Id>)
  datatype Sink = Sink(busy: Option<Id>, detaching: Option<Id>)

  datatype World = World(
    flows: map<Id, Flow>,
    bufs: map<Id, Buffer>,     // the allocated buffers
    sinks: map<Id, Sink>,      // the initialised sinks
    freed: set<Id>)            // buffers given back

  // ---- the invariant ----

  ghost predicate FlowOk(w: World, f: Id)
    requires f in w.flows
  {
    var fl := w.flows[f];
    && fl.buf in w.bufs && w.bufs[fl.buf].flow == Some(f)
    && (fl.desired.Some? ==> fl.desired.value in w.sinks && w.bufs[fl.buf].sink.Some?)
  }

  ghost predicate BufOk(w: World, b: Id)
    requires b in w.bufs
  {
    var bf := w.bufs[b];
    && b !in w.freed
    && (bf.sink.Some? ==> bf.sink.value in w.sinks)
    && (bf.flow.Some? ==> bf.flow.value in w.flows && w.flows[bf.flow.value].buf == b)
    && (bf.flow.None? ==> Detaching(w, b))
    && (bf.flow.Some? && !Detaching(w, b) ==> bf.sink == w.flows[bf.flow.value].desired)
  }

  ghost predicate SinkOk(w: World, s: Id)
    requires s in w.sinks
  {
    var sk := w.sinks[s];
    && (sk.busy.Some? ==> sk.busy.value in w.bufs && w.bufs[sk.busy.value].sink == Some(s))
    && (sk.detaching.Some? ==> sk.detaching == sk.busy)
  }

  /** The buffer is waiting for its sink to finish with it. */
  ghost predicate Detaching(w: World, b: Id)
    requires b in w.bufs
  {
    w.bufs[b].sink.Some? && w.bufs[b].sink.value in w.sinks && w.sinks[w.bufs[b].sink.value].detaching == Some(b)
  }

  ghost predicate Inv(w: World) {
    && (forall f {:trigger FlowOk(w, f)} :: f in w.flows ==> FlowOk(w, f))
    && (forall b {:trigger BufOk(w, b)} :: b in w.bufs ==> BufOk(w, b))
    && (forall s {:trigger SinkOk(w, s)} :: s in w.sinks ==> SinkOk(w, s))
  }

  /** No buffer appears, none is lost, and none comes back once freed. */
  ghost predicate Conserves(w: World, r: World) {
    r.bufs.Keys + r.freed == w.bufs.Keys + w.freed && w.freed <= r.freed
  }

  // ---- flow_buffer_* ----

  predicate IsBusy(w: World, b: Id)
    requires b in w.bufs && w.bufs[b].sink.Some? && w.bufs[b].sink.value in w.sinks
  {
    w.sinks[w.bufs[b].sink.value].busy == Some(b)
  }

  function BufAttach(w: World, b: Id, s: Id): (r: World)
    requires b in w.bufs && w.bufs[b].sink.None?
    ensures Conserves(w, r)
  {
    w.(bufs := w.bufs[b := w.bufs[b].(sink := Some(s))])
  }

  /** flow_buffer_detach; freeing the queue flow also forgets a send in progress */
  function BufDetach(w: World, b: Id): (r: World)
    requires b in w.bufs && w.bufs[b].sink.Some? && w.bufs[b].sink.value in w.sinks
    ensures Conserves(w, r)
  {
    var s := w.bufs[b].sink.value;
    var sk := w.sinks[s];
    w.(bufs := w.bufs[b := w.bufs[b].(sink := None)],
       sinks := w.sinks[s := Sink(if sk.busy == Some(b) then None else sk.busy,
                                  if sk.detaching == Some(b) then None else sk.detaching)])
  }

  function BufFree(w: World, b: Id): (r: World)
    requires b in w.bufs && w.bufs[b].sink.None?
    ensures Conserves(w, r)
  {
    w.(bufs := w.bufs - {b}, freed := w.freed + {b})
  }

  function ScheduleDetach(w: World, b: Id): (r: World)
    requires b in w.bufs && w.bufs[b].sink.Some? && w.bufs[b].sink.value in w.sinks && IsBusy(w, b)
    requires w.sinks[w.bufs[b].sink.value].detaching in {None, Some(b)}
    ensures Conserves(w, r)
  {
    var s := w.bufs[b].sink.value;
    w.(sinks := w.sinks[s := w.sinks[s].(detaching := Some(b))])
  }

  function FinishDetach(w: World, b: Id): (r: World)
    requires b in w.bufs && Detaching(w, b)
    requires w.bufs[b].flow.Some? ==> w.bufs[b].flow.value in w.flows
    ensures Conserves(w, r)
  {
    var w1 := BufDetach(w, b);
    if w.bufs[b].flow.None? then BufFree(w1, b)
    else
      var desired := w.flows[w.bufs[b].flow.value].desired;
      if desired.Some? then BufAttach(w1, b, desired.value) else w1
  }

  // ---- the interface ----

  datatype Op =
    | FlowInit(flow: Id, buf: Id)
    | FlowFree(flow: Id)
    | Attach(flow: Id, sink: Id)
    | Detach(flow: Id)
    | SinkInit(sink: Id)
    | SinkFree(sink: Id)
    | Send(sink: Id, buf: Id)      // the sink's queue starts on a packet of this buffer
    | Done(sink: Id)               // the packet being sent is finished

  /** What callers and queues may do: the interface's own conditions, and nothing about detaching. */
  ghost predicate Enabled(w: World, op: Op) {
    match op
    case FlowInit(f, b) => f !in w.flows && b !in w.bufs && b !in w.freed
    case FlowFree(f) => f in w.flows && w.flows[f].desired.None?
    case Attach(f, s) => f in w.flows && w.flows[f].desired.None? && s in w.sinks
    case Detach(f) => f in w.flows && w.flows[f].desired.Some?
    case SinkInit(s) => s !in w.sinks
    case SinkFree(s) => s in w.sinks && forall f :: f in w.flows ==> w.flows[f].desired != Some(s)
    case Send(s, b) => s in w.sinks && w.sinks[s].busy.None? && b in w.bufs && w.bufs[b].sink == Some(s)
    case Done(s) => s in w.sinks && w.sinks[s].busy.Some?
  }

  /** What a flow call looks at: the flow's buffer and the buffer's sink. */
  ghost predicate Reaches(w: World, f: Id) {
    && f in w.flows && w.flows[f].buf in w.bufs
    && var s := w.bufs[w.flows[f].buf].sink;
       s.Some? ==> s.value in w.sinks && (w.sinks[s.value].detaching.Some? ==> w.sinks[s.value].detaching == w.sinks[s.value].busy)
  }

  lemma InvReaches(w: World, f: Id)
    requires Inv(w) && f in w.flows
    ensures Reaches(w, f) && (w.flows[f].desired.Some? ==> w.bufs[w.flows[f].buf].sink.Some?)
  {
    OwnFacts(w, f);
  }

  function FlowFreeStep(w: World, f: Id): (r: World)
    requires Reaches(w, f)
    ensures r.flows == w.flows - {f} && r.sinks.Keys == w.sinks.Keys
    ensures Conserves(w, r)
  {
    var b := w.flows[f].buf;
    var w1 := w.(flows := w.flows - {f});
    if w.bufs[b].sink.Some? then
      if IsBusy(w, b) then
        var w2 := ScheduleDetach(w1, b);
        w2.(bufs := w2.bufs[b := w2.bufs[b].(flow := None)])
      else BufFree(BufDetach(w1, b), b)
    else BufFree(w1, b)
  }

  function AttachStep(w: World, f: Id, s: Id): (r: World)
    requires Reaches(w, f)
    ensures r.flows == w.flows[f := w.flows[f].(desired := Some(s))] && r.sinks.Keys == w.sinks.Keys
    ensures Conserves(w, r)
  {
    var b := w.flows[f].buf;
    var w1 :=
      if w.bufs[b].sink.Some? then
        if IsBusy(w, b) then ScheduleDetach(w, b)
        else BufAttach(BufDetach(w, b), b, s)
      else BufAttach(w, b, s);
    w1.(flows := w1.flows[f := w1.flows[f].(desired := Some(s))])
  }

  function DetachStep(w: World, f: Id): (r: World)
    requires Reaches(w, f) && w.bufs[w.flows[f].buf].sink.Some?
    ensures r.flows == w.flows[f := w.flows[f].(desired := None)] && r.sinks.Keys == w.sinks.Keys
    ensures Conserves(w, r)
  {
    var b := w.flows[f].buf;
    var w1 := if IsBusy(w, b) then ScheduleDetach(w, b) else BufDetach(w, b);
    w1.(flows := w1.flows[f := w1.flows[f].(desired := None)])
  }

  function SinkFreeStep(w: World, s: Id): (r: World)
    requires Inv(w) && Enabled(w, SinkFree(s))
    ensures r.flows == w.flows && r.sinks.Keys == w.sinks.Keys - {s}
    ensures Conserves(w, r)
  {
    var d := w.sinks[s].detaching;
    assert SinkOk(w, s) && (d.Some? ==> BufOk(w, d.value));
    var w1 := if d.Some? then FinishDetach(w, d.value) else w;
    w1.(sinks := w1.sinks - {s})
  }

  function DoneStep(w: World, s: Id): (r: World)
    requires Inv(w) && Enabled(w, Done(s))
    ensures r.flows == w.flows && r.sinks.Keys == w.sinks.Keys
    ensures Conserves(w, r)
  {
    assert SinkOk(w, s);
    var b := w.sinks[s].busy.value;
    assert BufOk(w, b);
    var w1 := w.(sinks := w.sinks[s := w.sinks[s].(busy := None)]);
    if w.sinks[s].detaching == Some(b) then FinishDetach(w1, b) else w1
  }

  function Step(w: World, op: Op): World
    requires Inv(w) && Enabled(w, op)
  {
    match op
    case FlowInit(f, b) => w.(flows := w.flows[f := Flow(None, b)], bufs := w.bufs[b := Buffer(Some(f), None)])
    case FlowFree(f) => InvReaches(w, f); FlowFreeStep(w, f)
    case Attach(f, s) => InvReaches(w, f); AttachStep(w, f, s)
    case Detach(f) => InvReaches(w, f); DetachStep(w, f)
    case SinkInit(s) => w.(sinks := w.sinks[s := Sink(None, None)])
    case SinkFree(s) => SinkFreeStep(w, s)
    case Send(s, b) => w.(sinks := w.sinks[s := w.sinks[s].(busy := Some(b))])
    case Done(s) => DoneStep(w, s)
  }

  // ---- what every step keeps ----

  lemma OwnFacts(w: World, f: Id)
    requires Inv(w) && f in w.flows
    ensures FlowOk(w, f) && BufOk(w, w.flows[f].buf)
    ensures var s := w.bufs[w.flows[f].buf].sink; s.Some? ==> s.value in w.sinks && SinkOk(w, s.value)
  {
    assert FlowOk(w, f);
    assert BufOk(w, w.flows[f].buf);
    var s := w.bufs[w.flows[f].buf].sink;
    if s.Some? { assert SinkOk(w, s.value); }
  }

  lemma FlowFreeKeepsInv(w: World, f: Id)
    requires Inv(w) && Enabled(w, FlowFree(f))
    ensures Reaches(w, f) && Inv(FlowFreeStep(w, f))
  {
    InvReaches(w, f);
    var w' := FlowFreeStep(w, f);
    OwnFacts(w, f);
    forall g | g in w'.flows ensures FlowOk(w', g) { assert FlowOk(w, g); }
    forall b | b in w'.bufs ensures BufOk(w', b) { assert BufOk(w, b); }
    forall s | s in w'.sinks ensures SinkOk(w', s) { assert SinkOk(w, s); }
  }

  lemma AttachKeepsInv(w: World, f: Id, s: Id)
    requires Inv(w) && Enabled(w, Attach(f, s))
    ensures Reaches(w, f) && Inv(AttachStep(w, f, s))
  {
    InvReaches(w, f);
    var w' := AttachStep(w, f, s);
    OwnFacts(w, f);
    forall g | g in w'.flows ensures FlowOk(w', g) { assert FlowOk(w, g); }
    forall b | b in w'.bufs ensures BufOk(w', b) { assert BufOk(w, b); }
    forall t | t in w'.sinks ensures SinkOk(w', t) { assert SinkOk(w, t); }
  }

  lemma DetachKeepsInv(w: World, f: Id)
    requires Inv(w) && Enabled(w, Detach(f))
    ensures Reaches(w, f) && w.bufs[w.flows[f].buf].sink.Some? && Inv(DetachStep(w, f))
  {
    InvReaches(w, f);
    var w' := DetachStep(w, f);
    OwnFacts(w, f);
    forall g | g in w'.flows ensures FlowOk(w', g) { assert FlowOk(w, g); }
    forall b | b in w'.bufs ensures BufOk(w', b) { assert BufOk(w, b); }
    forall s | s in w'.sinks ensures SinkOk(w', s) { assert SinkOk(w, s); }
  }

  lemma FinishDetachKeepsInv(w: World, b: Id)
    requires Inv(w) && b in w.bufs && Detaching(w, b) && BufOk(w, b)
    ensures Inv(FinishDetach(w, b))
  {
    var w' := FinishDetach(w, b);
    assert SinkOk(w, w.bufs[b].sink.value);
    assert w.bufs[b].flow.Some? ==> FlowOk(w, w.bufs[b].flow.value);
    forall g | g in w'.flows ensures FlowOk(w', g) { assert FlowOk(w, g); }
    forall c | c in w'.bufs ensures BufOk(w', c) { assert BufOk(w, c); }
    forall t | t in w'.sinks ensures SinkOk(w', t) { assert SinkOk(w, t); }
  }

  /** What each call does to the flows and sinks there are, and to no others. */
  lemma OpMeans(w: World, op: Op)
    requires Inv(w) && Enabled(w, op)
    ensures
      var w' := Step(w, op);
      && (forall f :: f in w.flows && op != FlowFree(f) ==>
            && f in w'.flows
            && w'.flows[f] == if op.Attach? && op.flow == f then w.flows[f].(desired := Some(op.sink))
                              else if op == Detach(f) then w.flows[f].(desired := None)
                              else w.flows[f])
      && (forall f :: f in w'.flows && f !in w.flows ==> op.FlowInit? && op.flow == f && w'.flows[f] == Flow(None, op.buf))
      && (op.FlowInit? ==> op.flow in w'.flows)
      && (op.FlowFree? ==> op.flow !in w'.flows)
      && (forall s :: s in w'.sinks <==> (s in w.sinks && op != SinkFree(s)) || op == SinkInit(s))
  {
    match op
    case FlowFree(f) => InvReaches(w, f);
    case Attach(f, s) => InvReaches(w, f);
    case Detach(f) => InvReaches(w, f);
    case _ =>
  }

  /**
   * A sink is busy with a buffer from the start of a send to its end, whatever
   * becomes of the buffer's flow meanwhile, and with no other.
   */
  lemma BusyUntilDone(w: World, op: Op, s: Id)
    requires Inv(w) && Enabled(w, op) && s in Step(w, op).sinks
    ensures
      Step(w, op).sinks[s].busy ==
      match op
      case Send(t, b) => if s == t then Some(b) else w.sinks[s].busy
      case Done(t) => if s == t then None else w.sinks[s].busy
      case SinkInit(t) => if s == t then None else w.sinks[s].busy
      case _ => w.sinks[s].busy
    ensures Step(w, op).sinks[s].busy.Some? ==> Step(w, op).sinks[s].busy.value in Step(w, op).bufs
  {
    StepKeepsInv(w, op);
    assert SinkOk(Step(w, op), s);
    match op
    case FlowFree(f) =>
      OwnFacts(w, f);
      assert s in w.sinks && SinkOk(w, s);
    case Attach(f, t) =>
      OwnFacts(w, f);
      assert s in w.sinks && SinkOk(w, s);
    case Detach(f) =>
      OwnFacts(w, f);
      assert s in w.sinks && SinkOk(w, s);
    case SinkFree(t) =>
      assert SinkOk(w, t) && SinkOk(w, s);
      if w.sinks[t].detaching.Some? { assert BufOk(w, w.sinks[t].detaching.value); }
    case Done(t) => DoneFrees(w, t);
    case _ =>
  }

  /** When a send is done the sink is idle; a buffer it was detaching has left it, and no other buffer has moved. */
  lemma DoneFrees(w: World, s: Id)
    requires Inv(w) && Enabled(w, Done(s))
    ensures
      var w', b := DoneStep(w, s), w.sinks[s].busy.value;
      && w'.sinks[s].busy.None? && w'.sinks[s].detaching.None?
      && (w.sinks[s].detaching.None? ==> w'.bufs == w.bufs)
      && (forall c :: c in w.bufs && c != b ==> c in w'.bufs && w'.bufs[c] == w.bufs[c])
      && (forall t :: t in w.sinks && t != s ==> w'.sinks[t] == w.sinks[t])
  {
    assert SinkOk(w, s) && BufOk(w, w.sinks[s].busy.value);
  }

  /** Once the detaching buffer of an undesired sink is released, nothing refers to the sink. */
  lemma SinkUnreferenced(w: World, s: Id)
    requires Inv(w) && Enabled(w, SinkFree(s)) && w.sinks[s].detaching.None?
    ensures forall b :: b in w.bufs ==> w.bufs[b].sink != Some(s)
    ensures Inv(w.(sinks := w.sinks - {s}))
  {
    forall b | b in w.bufs ensures w.bufs[b].sink != Some(s) { assert BufOk(w, b); }
    var w' := w.(sinks := w.sinks - {s});
    forall g | g in w'.flows ensures FlowOk(w', g) { assert FlowOk(w, g); }
    forall b | b in w'.bufs ensures BufOk(w', b) { assert BufOk(w, b); }
    forall t | t in w'.sinks ensures SinkOk(w', t) { assert SinkOk(w, t); }
  }

  lemma SinkFreeKeepsInv(w: World, s: Id)
    requires Inv(w) && Enabled(w, SinkFree(s))
    ensures Inv(SinkFreeStep(w, s))
  {
    var d := w.sinks[s].detaching;
    assert SinkOk(w, s) && (d.Some? ==> BufOk(w, d.value));
    var w1 := if d.Some? then FinishDetach(w, d.value) else w;
    if d.Some? {
      FinishDetachKeepsInv(w, d.value);
    }
    assert w1.flows == w.flows;
    SinkUnreferenced(w1, s);
  }

  lemma FinishIgnoresBusy(w: World, s: Id, b: Id)
    requires b in w.bufs && w.bufs[b].sink == Some(s) && s in w.sinks && w.sinks[s] == Sink(Some(b), Some(b))
    requires w.bufs[b].flow.Some? ==> w.bufs[b].flow.value in w.flows
    ensures FinishDetach(w.(sinks := w.sinks[s := w.sinks[s].(busy := None)]), b) == FinishDetach(w, b)
  {
    var w1 := w.(sinks := w.sinks[s := w.sinks[s].(busy := None)]);
    assert BufDetach(w1, b) == BufDetach(w, b);
  }

  lemma DoneKeepsInv(w: World, s: Id)
    requires Inv(w) && Enabled(w, Done(s))
    ensures Inv(DoneStep(w, s))
  {
    var b := w.sinks[s].busy.value;
    var w1 := w.(sinks := w.sinks[s := w.sinks[s].(busy := None)]);
    assert SinkOk(w, s) && BufOk(w, b);
    if w.sinks[s].detaching == Some(b) {
      FinishDetachKeepsInv(w, b);
      FinishIgnoresBusy(w, s, b);
    } else {
      forall g | g in w1.flows ensures FlowOk(w1, g) { assert FlowOk(w, g); }
      forall c | c in w1.bufs ensures BufOk(w1, c) { assert BufOk(w, c); }
      forall t | t in w1.sinks ensures SinkOk(w1, t) { assert SinkOk(w, t); }
    }
  }

  /**
   * A flow that wants no sink but still has one is being sent: the branches of
   * DataProtoFlow_Free and DataProtoFlow_Attach that detach at once never run.
   */
  lemma UndesiredSinkIsBusy(w: World, f: Id)
    requires Inv(w) && f in w.flows && w.flows[f].desired.None?
    ensures Reaches(w, f) && (w.bufs[w.flows[f].buf].sink.Some? ==> IsBusy(w, w.flows[f].buf) && Detaching(w, w.flows[f].buf))
  {
    OwnFacts(w, f);
  }

  /** Every call and every queue event keeps the ownership invariant. */
  lemma StepKeepsInv(w: World, op: Op)
    requires Inv(w) && Enabled(w, op)
    ensures Inv(Step(w, op))
  {
    match op
    case FlowFree(f) => FlowFreeKeepsInv(w, f);
    case Attach(f, s) => AttachKeepsInv(w, f, s);
    case Detach(f) => DetachKeepsInv(w, f);
    case SinkFree(s) => SinkFreeKeepsInv(w, s);
    case Done(s) => DoneKeepsInv(w, s);
    case _ =>
      var w' := Step(w, op);
      forall g | g in w'.flows ensures FlowOk(w', g) { assert g in w.flows ==> FlowOk(w, g); }
      forall b | b in w'.bufs ensures BufOk(w', b) { assert b in w.bufs ==> BufOk(w, b); }
      forall t | t in w'.sinks ensures SinkOk(w', t) { assert t in w.sinks ==> SinkOk(w, t); }
  }

  // ---- runs ----

  ghost predicate Run(w: World, ops: seq<Op>)
    requires Inv(w)
    decreases |ops|
  {
    ops == [] || (Enabled(w, ops[0]) && (StepKeepsInv(w, ops[0]); Run(Step(w, ops[0]), ops[1..])))
  }

  ghost function Final(w: World, ops: seq<Op>): (w': World)
    requires Inv(w) && Run(w, ops)
    ensures Inv(w')
    decreases |ops|
  {
    if ops == [] then w else StepKeepsInv(w, ops[0]); Final(Step(w, ops[0]), ops[1..])
  }

  function Created(ops: seq<Op>): set<Id> {
    if ops == [] then {} else (if ops[0].FlowInit? then {ops[0].buf} else {}) + Created(ops[1..])
  }

  /**
   * Over every run each buffer is freed at most once and none is lost: those
   * created so far are the ones still allocated and the ones freed, and no
   * buffer is both.
   */
  lemma {:induction false} EachBufferOnce(w: World, ops: seq<Op>)
    requires Inv(w) && Run(w, ops)
    ensures Final(w, ops).bufs.Keys !! Final(w, ops).freed
    ensures Final(w, ops).bufs.Keys + Final(w, ops).freed == w.bufs.Keys + w.freed + Created(ops)
    ensures w.freed <= Final(w, ops).freed
    decreases |ops|
  {
    if ops == [] {
      assert forall b :: b in w.bufs ==> BufOk(w, b);
    } else {
      StepKeepsInv(w, ops[0]);
      EachBufferOnce(Step(w, ops[0]), ops[1..]);
    }
  }

  /** No buffer leaks: each belongs to a flow, or is the one its sink is busy with and will release. */
  lemma NoLeak(w: World)
    requires Inv(w)
    ensures forall b :: b in w.bufs ==>
      || (exists f :: f in w.flows && w.flows[f].buf == b)
      || (exists s :: s in w.sinks && w.sinks[s] == Sink(Some(b), Some(b)))
  {
    forall b | b in w.bufs
      ensures (exists f :: f in w.flows && w.flows[f].buf == b) || (exists s :: s in w.sinks && w.sinks[s] == Sink(Some(b), Some(b)))
    {
      assert BufOk(w, b);
      if w.bufs[b].flow.None? {
        assert SinkOk(w, w.bufs[b].sink.value);
      }
    }
  }
}
