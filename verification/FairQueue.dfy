/**
 * The 64-bit fair queue as it runs: flow objects updated in place, and every
 * handler proved to take the model's step.
 */
module FairQueue {
  import opened FairQueueModel
  import opened Lists
  import opened FairQueueTheorems

  /** uint64_t addition and subtraction wrap around. */
  function Add64(a: Time, b: Time): Time {
    if a + b <= MAX_TIME then a + b else a + b - (MAX_TIME + 1)
  }

  function Sub64(a: Time, b: Time): Time {
    if b <= a then a - b else a - b + (MAX_TIME + 1)
  }

  class Queue64 {
    const weight: nat
    const mtu: nat
    var sending: Flow?
    var sendingLen: nat
    var previous: Flow?
    var tree: seq<Flow>
    var flows: seq<Flow>
    var job: bool
    var freeing: bool
    ghost var model: Queue

    /** The fields and the flow objects hold exactly what the model holds. */
    ghost predicate Valid()
      reads this, model.time.Keys
    {
      && Inv(model)
      && model.weight == weight && model.mtu == mtu && model.flows == flows && model.tree == tree
      && model.sending == sending && model.sendingLen == sendingLen && model.previous == previous
      && model.job == job && model.freeing == freeing
      && FlowsAgree(model)
    }

    constructor (weight: nat, mtu: nat)
      requires 0 < weight && weight + mtu <= MAX_TIME
      ensures Valid() && model == Queue(weight, mtu, [], map[], map[], [], null, 0, null, false, false)
    {
      this.weight, this.mtu := weight, mtu;
      sending, sendingLen, previous, tree, flows := null, 0, null, [], [];
      job, freeing := false, false;
      model := Queue(weight, mtu, [], map[], map[], [], null, 0, null, false, false);
    }

    /** PacketPassFairQueue_Init: fails when one packet could outweigh the whole time range. */
    static method Init(weight: nat, mtu: nat) returns (q: Queue64?)
      requires 0 < weight
      ensures q == null <==> weight + mtu > MAX_TIME
      ensures q != null ==> fresh(q) && q.Valid() && q.model == Queue(weight, mtu, [], map[], map[], [], null, 0, null, false, false)
    {
      if !(mtu <= MAX_TIME && weight <= MAX_TIME - mtu) {
        return null;
      }
      q := new Queue64(weight, mtu);
    }

    /** PacketPassFairQueueFlow_Init */
    method Join(f: Flow)
      requires Valid() && Enabled(model, Event.Join(f))
      modifies this, f
      ensures Valid() && model == JoinStep(old(model), f)
    {
      hide Inv;
      StepFacts(model, Event.Join(f));
      f.time, f.isQueued := 0, false;
      flows := flows + [f];
      model := JoinStep(model, f);
    }

    /** PacketPassFairQueueFlow_Free */
    method Leave(f: Flow)
      requires Valid() && Enabled(model, Event.Leave(f))
      modifies this
      ensures Valid() && model == LeaveStep(old(model), f)
    {
      hide Inv, Remove, FlowsAgree, Enabled, NoDup, Covered;
      LeaveFacts(model, f);
      sending := if f == sending then null else sending;
      previous := if f == previous then null else previous;
      tree := if f.isQueued then Remove(tree, f) else tree;
      flows := Remove(flows, f);
      model := LeaveStep(model, f);
      assert FlowsAgree(model);
    }

    /** PacketPassFairQueue_PrepareFree */
    method PrepareFree()
      requires Valid()
      modifies this
      ensures Valid() && model == old(model).(freeing := true)
    {
      freeing := true;
      model := model.(freeing := true);
    }

    /** get_current_time */
    method GetCurrentTime() returns (t: Time)
      requires model.sending == sending && model.previous == previous && model.tree == tree && FlowsAgree(model)
      requires sending != null ==> sending in model.time
      requires previous != null ==> previous in model.time
      requires Covered(model.time, tree)
      ensures t == CurrentTime(model)
    {
      if sending != null {
        return sending.time;
      }
      var have := false;
      t := 0;
      if tree != [] {
        assert tree[0] in tree;
        t, have := tree[0].time, true;
      }
      if previous != null {
        if !have || previous.time < t {
          t := previous.time;
        }
      }
    }

    /** schedule */
    method ScheduleFirst()
      requires model.tree == tree != [] && tree[0] in model.queued && tree[0] in model.time && FlowsAgree(model)
      modifies this`sending, this`sendingLen, this`tree, this`model, model.time.Keys
      ensures model == Schedule(old(model)) && FlowsAgree(model)
      ensures sending == model.sending && sendingLen == model.sendingLen && tree == model.tree
    {
      var first := tree[0];
      tree := tree[1..];
      first.isQueued := false;
      sending, sendingLen := first, first.dataLen;
      model := Schedule(model);
    }

    /** input_handler_send, up to the tree */
    method RaiseTime(f: Flow)
      requires f in model.time && FlowsAgree(model) && Covered(model.time, tree)
      requires model.sending == sending && model.previous == previous && model.tree == tree
      requires sending != null ==> sending in model.time
      requires previous != null ==> previous in model.time
      modifies this`previous, f`time
      ensures previous == if f == model.previous then null else model.previous
      ensures f.time == if f == model.previous then model.time[f] else Max(model.time[f], CurrentTime(model))
    {
      if f == previous {
        previous := null;
      } else {
        var now := GetCurrentTime();
        if f.time < now { f.time := now; }
      }
    }

    method Enqueue(f: Flow, len: nat)
      requires Inv(model) && f in model.time && FlowsAgree(model) && Covered(model.time, tree)
      requires model.sending == sending && model.previous == previous && model.tree == tree
      requires sending != null ==> sending in model.time
      requires previous != null ==> previous in model.time
      modifies this`previous, this`tree, this`model, model.time.Keys
      ensures model == EnqueueStep(old(model), f, len) && FlowsAgree(model)
      ensures tree == model.tree && previous == model.previous
    {
      hide Inv, Insert, CurrentTime, OthersAgree, FlowsAgree, Covered;
      OthersAgreeNow(model, f);
      RaiseTime(f);
      TimesAgree(model, f, tree);
      tree := TreeInsert(tree, f, model.time[f := f.time]);
      f.dataLen, f.isQueued := len, true;
      AgreeAfterEnqueue(model, f, len);
      model := EnqueueStep(model, f, len);
    }

    /** input_handler_send */
    method Submit(f: Flow, len: nat)
      requires Valid() && Enabled(model, Event.Submit(f, len))
      modifies this, model.time.Keys
      ensures Valid() && model == SubmitStep(old(model), f, len)
    {
      hide Inv, Insert, CurrentTime, Covered, FlowsAgree;
      StepFacts(model, Event.Submit(f, len));
      Enqueue(f, len);
      if sending == null && !job {
        ScheduleFirst();
      }
    }

    /**
     * increment_sent_flow.  The finished flow may wrap below zero and back; its
     * final time, and everyone else's, is still the exact one.
     */
    method IncrementSent(f: Flow, amount: Time)
      requires Inv(model) && model.flows == flows && model.tree == tree && f == model.sending
      requires amount == model.weight + model.sendingLen && FlowsAgree(model)
      modifies model.time.Keys
      ensures forall g :: g in model.time ==> g.time == Increment(model, f, amount)[g]
      ensures forall g :: g in model.time ==> g.isQueued == old(g.isQueued) && g.dataLen == old(g.dataLen)
    {
      hide Inv, Covered, NoDup, Increment;
      RebaseFacts(model);
      if amount > MAX_TIME - f.time {
        var subtract := if tree == [] then f.time else tree[0].time;
        SubtractAll(flows, f, subtract);
      }
      f.time := Add64(f.time, amount);
    }

    /** output_handler_done, up to the callbacks it makes last */
    method Done()
      requires Valid() && Enabled(model, Event.Done)
      modifies this, model.time.Keys
      ensures Valid() && model == DoneStep(old(model))
    {
      hide Inv;
      StepFacts(model, Event.Done);
      var flow := sending;
      IncrementSent(flow, weight + sendingLen);
      sending, previous, job := null, flow, true;
      model := DoneStep(model);
    }

    /** schedule_job_handler */
    method RunJob()
      requires Valid() && Enabled(model, Event.RunJob)
      modifies this, model.time.Keys
      ensures Valid() && model == RunJobStep(old(model))
    {
      hide Inv;
      StepFacts(model, Event.RunJob);
      job := false;
      previous := null;
      model := model.(previous := null, job := false);
      if tree != [] {
        ScheduleFirst();
      }
    }
  }

  /** A flow object holds the model's values for it. */
  ghost predicate Agrees(f: Flow, q: Queue)
    reads f
  {
    && f in q.time && q.time[f] == f.time
    && (f.isQueued <==> f in q.queued)
    && (f.isQueued ==> q.queued[f] == f.dataLen)
  }

  ghost predicate FlowsAgree(q: Queue)
    reads q.time.Keys
  {
    forall f :: f in q.time ==> Agrees(f, q)
  }

  ghost predicate OthersAgree(q: Queue, f: Flow)
    reads q.time.Keys - {f}
  {
    forall g :: g in q.time && g != f ==> Agrees(g, q)
  }

  lemma OthersAgreeNow(q: Queue, f: Flow)
    requires FlowsAgree(q)
    ensures OthersAgree(q, f)
  {
  }

  lemma TimesAgree(q: Queue, f: Flow, tree: seq<Flow>)
    requires OthersAgree(q, f) && Covered(q.time, tree)
    ensures forall g :: g in tree ==> g in q.time[f := f.time] && q.time[f := f.time][g] == g.time
  {
  }

  lemma AgreeAfterEnqueue(q: Queue, f: Flow, len: nat)
    requires Inv(q) && f in q.time && OthersAgree(q, f)
    requires f.time == EnqueueStep(q, f, len).time[f] && f.dataLen == len && f.isQueued
    ensures FlowsAgree(EnqueueStep(q, f, len))
  {
    hide Inv, Insert, CurrentTime;
    var q1 := EnqueueStep(q, f, len);
    forall g | g in q1.time ensures Agrees(g, q1) {
      assert g == f || Agrees(g, q);
    }
  }

  /** One flow after the rebase loop has passed it. */
  ghost predicate Shifted(g: Flow, f: Flow, subtract: Time, was: int)
    requires 0 <= was <= MAX_TIME
    reads g
  {
    g.time == if g == f then Sub64(was, subtract) else Max(0, was - subtract)
  }

  /** The loop of increment_sent_flow, over the whole flow list. */
  method SubtractAll(flows: seq<Flow>, f: Flow, subtract: Time)
    requires NoDup(flows)
    modifies flows
    ensures forall g :: g in flows ==> Shifted(g, f, subtract, old(g.time))
    ensures forall g :: g in flows ==> g.isQueued == old(g.isQueued) && g.dataLen == old(g.dataLen)
  {
    for i := 0 to |flows|
      invariant forall k :: 0 <= k < i ==> Shifted(flows[k], f, subtract, old(flows[k].time))
      invariant forall k :: i <= k < |flows| ==> flows[k].time == old(flows[k].time)
      invariant forall g :: g in flows ==> g.isQueued == old(g.isQueued) && g.dataLen == old(g.dataLen)
    {
      var some := flows[i];
      if subtract > some.time && some != f {
        some.time := 0;
      } else {
        some.time := Sub64(some.time, subtract);
      }
    }
  }

  /** What a handler needs to know of the state it starts in. */
  lemma StepFacts(q: Queue, e: Event)
    requires Inv(q) && Enabled(q, e)
    ensures Inv(Step(q, e))
    ensures Covered(q.time, q.tree) && (forall f :: f in q.queued ==> f in q.time)
    ensures q.tree != [] ==> q.tree[0] in q.queued && q.tree[0] in q.time
    ensures q.sending != null ==> q.sending in q.time && !q.job && q.weight + q.sendingLen <= MAX_TIME
    ensures q.previous != null ==> q.previous in q.time && q.job
    ensures e.Submit? ==> var q1 := EnqueueStep(q, e.flow, e.len); q1.tree != [] && q1.tree[0] in q1.queued && q1.tree[0] in q1.time
  {
    StepKeepsInv(q, e);
    assert q.tree != [] ==> q.tree[0] in q.tree;
    if e.Submit? {
      var q1 := EnqueueStep(q, e.flow, e.len);
      assert q1.tree[0] in q1.tree;
    }
  }

  lemma LeaveFacts(q: Queue, f: Flow)
    requires Inv(q) && Enabled(q, Event.Leave(f)) && FlowsAgree(q)
    ensures Inv(LeaveStep(q, f)) && FlowsAgree(LeaveStep(q, f))
    ensures !f.isQueued ==> Remove(q.tree, f) == q.tree
  {
    StepKeepsInv(q, Event.Leave(f));
    assert Agrees(f, q);
    var q' := LeaveStep(q, f);
    forall g | g in q'.time ensures Agrees(g, q') {
      assert Agrees(g, q);
    }
  }

  lemma RebaseFacts(q: Queue)
    requires Inv(q) && q.sending != null
    ensures NoDup(q.flows) && (forall f :: f in q.flows ==> f in q.time) && (forall f :: f in q.time ==> f in q.flows)
    ensures q.sending in q.time && (q.tree != [] ==> q.tree[0] in q.time) && Covered(q.time, q.tree)
    ensures
      var amount := q.weight + q.sendingLen;
      var sub := Subtract(q, q.sending, amount);
      && 0 <= q.time[q.sending] + amount - sub <= MAX_TIME
      && forall g :: g in q.time ==>
           g in Increment(q, q.sending, amount) &&
           Increment(q, q.sending, amount)[g] == if g == q.sending then q.time[g] + amount - sub else Max(0, q.time[g] - sub)
  {
    RebaseIsExact(q);
    assert q.tree != [] ==> q.tree[0] in q.tree;
  }

  /** Ordered insertion by time and address, where the tree keeps its nodes. */
  method TreeInsert(tree: seq<Flow>, f: Flow, ghost time: map<Flow, int>) returns (r: seq<Flow>)
    requires f in time && time[f] == f.time
    requires forall g :: g in tree ==> g in time && time[g] == g.time
    ensures r == Insert(time, tree, f)
  {
    hide Insert;
    var i := 0;
    assert tree[0..] == tree && tree[..0] == [] && [] + Insert(time, tree, f) == Insert(time, tree, f);
    while i < |tree| && (tree[i].time < f.time || (tree[i].time == f.time && tree[i].addr < f.addr))
      invariant 0 <= i <= |tree|
      invariant Insert(time, tree, f) == tree[..i] + Insert(time, tree[i..], f)
    {
      assert tree[i] in tree;
      InsertStep(time, tree, f, i);
      i := i + 1;
    }
    if i < |tree| {
      assert tree[i] in tree;
    }
    InsertStep(time, tree, f, i);
    r := tree[..i] + [f] + tree[i..];
  }

  lemma InsertStep(time: map<Flow, int>, tree: seq<Flow>, f: Flow, i: nat)
    requires Covered(time, tree) && f in time && i <= |tree|
    ensures
      if i < |tree| && Before(time, tree[i], f)
      then tree[..i] + Insert(time, tree[i..], f) == tree[..i + 1] + Insert(time, tree[i + 1..], f)
      else tree[..i] + Insert(time, tree[i..], f) == tree[..i] + [f] + tree[i..]
  {
    if i < |tree| {
      assert tree[i..][0] == tree[i] && tree[i..][1..] == tree[i + 1..];
      assert tree[..i + 1] == tree[..i] + [tree[i]];
    }
  }
}
